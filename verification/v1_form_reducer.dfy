/**
 * The first-generation form reducer: form state is a tree mirroring the model, where every
 * object or array node carries its own metadata under `$form` and every leaf is a field
 * record. An action addressed at a path applies a per-type "reaction": the field reaction
 * to the addressed record and the form reaction to the `$form` of every node above it.
 *
 * The source's arrays of form state carry a `$form` property, which a `Value` array cannot;
 * they are built here as plain objects keyed by index strings.
 */
module V1FormReducer {
  import opened Wrappers
  import opened Indices
  import opened Values
  import opened Paths
  import Actions
  import Lodash
  import Icepick
  import Utils
  import Seqs

  /** The record of a field nobody has touched. */
  const InitialFieldState: Attrs := map[
    "focus" := Bool(false),
    "pending" := Bool(false),
    "pristine" := Bool(true),
    "submitted" := Bool(false),
    "submitFailed" := Bool(false),
    "retouched" := Bool(false),
    "touched" := Bool(false),
    "valid" := Bool(true),
    "validating" := Bool(false),
    "validated" := Bool(false),
    "viewValue" := Null,
    "validity" := Obj(map[]),
    "errors" := Obj(map[])
  ]

  /**
   * The initial record of a value: `merge(initialFieldState, {initialValue: value})`, written
   * out; `InitialRecordIsMerge` relates it to the merge.
   */
  function InitialRecord(v: Value): Value
  {
    if v == Undef then Obj(InitialFieldState) else Obj(InitialFieldState["initialValue" := v])
  }

  /** The initial record holds the initial field state and, unless it is `undefined`, the value. */
  lemma InitialRecordFields(v: Value)
    ensures var r := InitialRecord(v);
      && r.Obj? && r.fields.Keys == InitialFieldState.Keys + (if v != Undef then {"initialValue"} else {})
      && Get(r, "initialValue") == v
      && forall k :: k in InitialFieldState ==> Get(r, k) == InitialFieldState[k]
  {
    assert "initialValue" !in InitialFieldState;
    MergeNewKey(InitialFieldState, "initialValue", v);
  }

  /** The written-out record is the icepick merge the source performs. */
  lemma InitialRecordIsMerge(v: Value)
    ensures InitialRecord(v) == Icepick.Merge(Obj(InitialFieldState), Obj(map["initialValue" := v]))
  {
    assert "initialValue" !in InitialFieldState;
    MergeNewKey(InitialFieldState, "initialValue", v);
  }

  /** Merging one key the record lacks adds it, unless the value is `undefined`. */
  lemma MergeNewKey(m: Attrs, key: string, v: Value)
    requires key !in m
    ensures var r := Icepick.Merge(Obj(m), Obj(map[key := v]));
      && r == (if v == Undef then Obj(m) else Obj(m[key := v]))
      && r.Obj? && r.fields.Keys == m.Keys + (if v != Undef then {key} else {})
      && Get(r, key) == v
      && forall k :: k in m ==> Get(r, k) == m[k]
  {
    var r := Icepick.Merge(Obj(m), Obj(map[key := v]));
    assert forall k :: k in m ==> Get(r, k) == m[k];
    if v == Undef {
      assert r.fields == m;
    } else {
      assert r.fields == m[key := v];
    }
  }

  /** `getField(state, path)`: the record at `path`, the initial field state when absent. */
  function GetField(state: Value, path: string): (r: Result<Value>)
    ensures !state.Obj? ==> r == Err(NotAnObject)
    ensures state.Obj? && Lodash.GetIn(state, CastPath(path)) == Undef ==> r == Ok(Obj(InitialFieldState))
    ensures state.Obj? && Lodash.GetIn(state, CastPath(path)) != Undef ==> r == Ok(Lodash.GetIn(state, CastPath(path)))
  {
    if !IsPlainObject(state) then Err(NotAnObject)
    else Ok(Lodash.GetOr(state, CastPath(path), Obj(InitialFieldState)))
  }

  /**
   * `createInitialState(state)`: the metadata tree mirroring `v`. A node gets one entry per
   * own key (array slots keyed by index) and a `$form` record remembering the node; a leaf
   * becomes a record remembering the leaf.
   */
  function CreateInitialState(v: Value): Value
    decreases v, 1
  {
    if IsContainer(v) then Obj(InitialChildren(v)["$form" := InitialRecord(v)])
    else InitialRecord(v)
  }

  /** The initial tree of every entry of a node, under the entry's key. */
  function InitialChildren(v: Value): (r: map<string, Value>)
    decreases v, 0
  {
    var es := Entries(v);
    EntriesSmaller(v);
    map k | k in es :: CreateInitialState(es[k])
  }

  /**
   * A leaf's initial tree is its initial record; a node's has one entry per entry of the node,
   * holding that entry's initial tree, and the node's initial record under `$form`.
   */
  lemma InitialStateShape(v: Value)
    ensures var r := CreateInitialState(v);
      && (!IsContainer(v) ==> r == InitialRecord(v))
      && (IsContainer(v) ==> r.Obj? && r.fields.Keys == Entries(v).Keys + {"$form"})
      && (IsContainer(v) ==> r.fields["$form"] == InitialRecord(v))
      && (IsContainer(v) ==> forall k :: k in Entries(v) && k != "$form" ==>
            r.fields[k] == CreateInitialState(Entries(v)[k]))
  {
    if IsContainer(v) {
      InitialStateKeys(v);
      forall k | k in Entries(v) && k != "$form"
        ensures CreateInitialState(v).fields[k] == CreateInitialState(Entries(v)[k])
      {
        InitialStateEntry(v, k);
      }
    }
  }

  lemma InitialStateKeys(v: Value)
    requires IsContainer(v)
    ensures CreateInitialState(v).Obj? && CreateInitialState(v).fields.Keys == Entries(v).Keys + {"$form"}
  {
  }

  lemma InitialStateEntry(v: Value, k: string)
    requires IsContainer(v) && k in Entries(v) && k != "$form"
    ensures var r := CreateInitialState(v);
      k in r.fields && r.fields[k] == CreateInitialState(Entries(v)[k])
  {
  }

  /**
   * `formIsValid(formState)`: every entry's `valid`, the `$form` record's own included, is
   * truthy, and every form-level error is falsy. Reading `valid` of a missing entry or
   * `errors` of a missing `$form` throws.
   */
  function FormIsValid(formState: Value): (r: Result<bool>)
  {
    var es := Entries(formState);
    if exists k :: k in es && (es[k] == Undef || es[k] == Null) then Err(NullAccess)
    else if !(forall k :: k in es ==> Truthy(Get(es[k], "valid"))) then Ok(false)
    else
      var meta := Get(formState, "$form");
      if meta == Undef || meta == Null then Err(NullAccess)
      else Ok(EveryFalsy(Get(meta, "errors")))
  }

  /**
   * A form state is valid exactly when every entry is valid, the `$form` is present and none
   * of its errors is set; a missing entry throws, and an invalid `$form` is never valid.
   */
  lemma FormIsValidMeaning(formState: Value)
    ensures var r := FormIsValid(formState); var es := Entries(formState);
      && ((exists k :: k in es && (es[k] == Undef || es[k] == Null)) ==> r == Err(NullAccess))
      && (r == Ok(true) <==>
           && (forall k :: k in es ==> Truthy(Get(es[k], "valid")))
           && Get(formState, "$form") != Undef && Get(formState, "$form") != Null
           && EveryFalsy(Get(Get(formState, "$form"), "errors")))
      && (HasKey(formState, "$form") && !Truthy(Get(Get(formState, "$form"), "valid")) ==> r != Ok(true))
  {
    if HasKey(formState, "$form") {
      HasKeyEntries(formState, "$form");
    }
  }

  /**
   * What a reaction does, with the action properties it reads. `SET_TOUCHED` shares the
   * blur reaction; the submit-failed reaction sits under the key `"undefined"` because its
   * type constant is not defined.
   */
  datatype Reaction =
    | FocusReaction
    | PristineReaction
    | DirtyReaction
    | BlurReaction
    | UntouchedReaction
    | PendingReaction(pending: Value)
    | ValidityReaction(validity: Value)
    | ErrorsReaction(errors: Value)
    | SubmittedReaction(submitted: Value)
    | SubmitFailedReaction(submitFailed: Value)

  /** The property name `reactions[action.type]` looks up: an `undefined` type reads as `"undefined"`. */
  function ReactionKey(a: Actions.Action): string
  {
    match Actions.TypeOf(a)
    case Some(t) => t
    case None => "undefined"
  }

  const ReactionKeys: set<string> := {
    Actions.FOCUS, Actions.SET_PRISTINE, Actions.SET_DIRTY, Actions.BLUR, Actions.SET_TOUCHED,
    Actions.SET_UNTOUCHED, Actions.SET_PENDING, Actions.SET_VALIDITY, Actions.SET_ERRORS,
    Actions.SET_SUBMITTED, "undefined"
  }

  /** `getReaction(state, action)`: the reaction registered under the action's type, if any. */
  function GetReaction(a: Actions.Action): (r: Option<Reaction>)
  {
    var t := ReactionKey(a);
    if t == Actions.FOCUS then Some(FocusReaction)
    else if t == Actions.SET_PRISTINE then Some(PristineReaction)
    else if t == Actions.SET_DIRTY then Some(DirtyReaction)
    else if t == Actions.BLUR || t == Actions.SET_TOUCHED then Some(BlurReaction)
    else if t == Actions.SET_UNTOUCHED then Some(UntouchedReaction)
    else if t == Actions.SET_PENDING then Some(PendingReaction(Actions.PendingOf(a)))
    else if t == Actions.SET_VALIDITY then Some(ValidityReaction(Actions.ValidityOf(a)))
    else if t == Actions.SET_ERRORS then Some(ErrorsReaction(Actions.ErrorsOf(a)))
    else if t == Actions.SET_SUBMITTED then Some(SubmittedReaction(Actions.SubmittedOf(a)))
    else if t == "undefined" then Some(SubmitFailedReaction(Actions.SubmitFailedOf(a)))
    else None
  }

  /**
   * The reaction each action gets: focus, blur (shared by SET_TOUCHED), pending, validity,
   * errors, submitted and submit-failed read the action's own properties; the types without a
   * constant of their own fall under `"undefined"`, the submit-failed reaction, with no
   * `submitFailed`; CHANGE, RESET, SET_INITIAL and SET_VIEW_VALUE have none.
   */
  lemma ReactionOf(a: Actions.Action)
    ensures GetReaction(a).None? <==> ReactionKey(a) !in ReactionKeys
    ensures a.Focus? ==> GetReaction(a) == Some(FocusReaction)
    ensures a.Blur? || a.SetTouched? ==> GetReaction(a) == Some(BlurReaction)
    ensures a.SetPending? ==> GetReaction(a) == Some(PendingReaction(a.pending))
    ensures a.SetValidity? ==> GetReaction(a) == Some(ValidityReaction(a.validity))
    ensures a.SetErrors? ==> GetReaction(a) == Some(ErrorsReaction(a.errors))
    ensures a.SetSubmitted? ==> GetReaction(a) == Some(SubmittedReaction(a.submitted))
    ensures a.SetSubmitFailed? ==> GetReaction(a) == Some(SubmitFailedReaction(a.submitFailed))
    ensures a.SetValidating? || a.SetFieldsValidity? || a.ResetValidity? ==> GetReaction(a) == Some(SubmitFailedReaction(Undef))
    ensures a.Change? || a.Reset? || a.SetInitial? || a.SetViewValue? ==> GetReaction(a).None?
  {
  }

  /** JavaScript `x && y` */
  function And(x: Value, y: Value): (r: Value)
    ensures Truthy(r) <==> Truthy(x) && Truthy(y)
  {
    if Truthy(x) then y else x
  }

  /**
   * The `valid` flag SET_VALIDITY gives a field: the validity is turned into errors (key-wise
   * for an object), and the field is valid when there is no error.
   */
  function ValidFromValidity(validity: Value): (valid: bool)
    ensures valid <==> if validity.Obj? then EveryTruthy(validity) else Truthy(validity)
  {
    var errors := Invert(validity);
    if errors.Bool? then !errors.b else EveryFalsy(errors)
  }

  /**
   * The field reaction's patch for the addressed record. `fieldForm` is the `$form` of the
   * record's parent, which the blur reaction reads (and which throws when absent).
   */
  function FieldReaction(r: Reaction, field: Value, fieldForm: Value): (p: Result<Value>)
  {
    match r
    case FocusReaction => Ok(Obj(map["focus" := Bool(true)]))
    case PristineReaction => Ok(Obj(map["pristine" := Bool(true)]))
    case DirtyReaction => Ok(Obj(map["pristine" := Bool(false)]))
    case BlurReaction =>
      if fieldForm == Undef || fieldForm == Null then Err(NullAccess)
      else Ok(Obj(map[
        "focus" := Bool(false),
        "touched" := Bool(true),
        "retouched" := BoolOf(if Truthy(Get(fieldForm, "submitted")) then Get(fieldForm, "submitted")
                              else Get(fieldForm, "submitFailed"))]))
    case UntouchedReaction => Ok(Obj(map["touched" := Bool(false)]))
    case PendingReaction(pending) => Ok(Obj(map[
        "pending" := pending,
        "submitted" := Bool(false),
        "submitFailed" := Bool(false),
        "retouched" := Bool(false)]))
    case ValidityReaction(validity) => Ok(Obj(map[
        "validity" := validity,
        "valid" := Bool(ValidFromValidity(validity)),
        "validated" := Bool(true)]))
    case ErrorsReaction(errors) =>
      var validity := Invert(errors);
      Ok(Obj(map[
        "errors" := errors,
        "validity" := validity,
        "valid" := Bool(Utils.IsValid(validity)),
        "validated" := Bool(true)]))
    case SubmittedReaction(submitted) => Ok(Obj(map[
        "pending" := Bool(false),
        "submitted" := BoolOf(submitted),
        "submitFailed" := Not(submitted),
        "touched" := Bool(true)]))
    case SubmitFailedReaction(submitFailed) =>
      if field == Undef || field == Null then Err(NullAccess)
      else Ok(Obj(map[
        "pending" := Bool(false),
        "submitted" := And(Get(field, "submitted"), Not(submitFailed)),
        "submitFailed" := BoolOf(submitFailed),
        "touched" := Bool(true)]))
  }

  /**
   * The field patch fails only where the source reads a property of a missing value: the
   * blur reaction without a parent `$form`, the submit-failed reaction without a record. It
   * is a plain object that never touches `$form`, and each reaction sets its flags.
   */
  lemma FieldReactionEffect(r: Reaction, field: Value, fieldForm: Value)
    ensures var p := FieldReaction(r, field, fieldForm);
      && (p.Err? <==>
           || (r.BlurReaction? && (fieldForm == Undef || fieldForm == Null))
           || (r.SubmitFailedReaction? && (field == Undef || field == Null)))
      && (p.Ok? ==> p.value.Obj? && "$form" !in p.value.fields)
      && (r.FocusReaction? ==> p == Ok(Obj(map["focus" := Bool(true)])))
      && (r.BlurReaction? && p.Ok? ==>
           && Get(p.value, "focus") == Bool(false) && Get(p.value, "touched") == Bool(true)
           && Get(p.value, "retouched") == Bool(Truthy(Get(fieldForm, "submitted")) || Truthy(Get(fieldForm, "submitFailed"))))
      && (r.ValidityReaction? ==>
           && Get(p.value, "validity") == r.validity && Get(p.value, "validated") == Bool(true)
           && Get(p.value, "valid") == Bool(ValidFromValidity(r.validity)))
      && (r.ErrorsReaction? ==>
           && Get(p.value, "errors") == r.errors && Get(p.value, "validity") == Invert(r.errors)
           && Get(p.value, "valid") == Bool(Utils.IsValid(Invert(r.errors))) && Get(p.value, "validated") == Bool(true))
      && (r.SubmittedReaction? ==>
           && Get(p.value, "pending") == Bool(false) && Get(p.value, "submitted") == BoolOf(r.submitted)
           && Get(p.value, "submitFailed") == Not(r.submitted) && Get(p.value, "touched") == Bool(true))
  {
  }

  /** Form reactions whose patch is a fixed record, whatever the form holds. */
  function ConstFormPatch(r: Reaction): (p: Option<Attrs>)
    ensures p.Some? <==> !(r.BlurReaction? || r.UntouchedReaction? || r.ValidityReaction? || r.ErrorsReaction?)
  {
    match r
    case FocusReaction => Some(map["focus" := Bool(true)])
    case PristineReaction => Some(map["pristine" := Bool(true)])
    case DirtyReaction => Some(map["pristine" := Bool(false)])
    case PendingReaction(pending) => Some(map["pending" := pending, "retouched" := Bool(false)])
    case SubmittedReaction(submitted) => Some(map[
        "pending" := Bool(false),
        "submitted" := BoolOf(submitted),
        "submitFailed" := Not(submitted),
        "touched" := Bool(true)])
    case SubmitFailedReaction(_) => Some(map["touched" := Bool(true)])
    case _ => None
  }

  /**
   * The form reaction's patch for the `$form` of a node above the addressed record; `fields`
   * is that node after its child was updated. The untouched reaction returns the record
   * itself (merging it over itself changes nothing).
   */
  function FormReaction(r: Reaction, form: Value, fields: Value): (p: Result<Value>)
  {
    match r
    case BlurReaction =>
      if form == Undef || form == Null then Err(NullAccess)
      else Ok(Obj(map[
        "focus" := Bool(false),
        "touched" := Bool(true),
        "retouched" := BoolOf(if Truthy(Get(form, "submitted")) then Get(form, "submitted")
                              else Get(form, "submitFailed")),
        "submitted" := Get(form, "submitted")]))
    case UntouchedReaction => Ok(form)
    case ValidityReaction(_) =>
      (match FormIsValid(fields)
       case Err(e) => Err(e)
       case Ok(valid) => Ok(Obj(map["valid" := Bool(valid)])))
    case ErrorsReaction(_) =>
      (match FormIsValid(fields)
       case Err(e) => Err(e)
       case Ok(valid) => Ok(Obj(map["valid" := Bool(valid)])))
    case _ => Ok(Obj(ConstFormPatch(r).value))
  }

  /**
   * The form patch: the fixed record of the constant reactions, the `$form` itself for
   * untouched, the blur flags (failing without a `$form`), and for validity and errors the
   * verdict of `formIsValid` on the node, or its failure.
   */
  lemma FormReactionEffect(r: Reaction, form: Value, fields: Value)
    ensures var p := FormReaction(r, form, fields);
      && (ConstFormPatch(r).Some? ==> p == Ok(Obj(ConstFormPatch(r).value)))
      && (r.UntouchedReaction? ==> p == Ok(form))
      && (r.BlurReaction? ==> (p.Err? <==> form == Undef || form == Null))
      && (r.BlurReaction? && p.Ok? ==>
           && p.value.Obj?
           && Get(p.value, "focus") == Bool(false) && Get(p.value, "touched") == Bool(true)
           && Get(p.value, "retouched") == Bool(Truthy(Get(form, "submitted")) || Truthy(Get(form, "submitFailed")))
           && Get(p.value, "submitted") == Get(form, "submitted"))
      && (r.ValidityReaction? || r.ErrorsReaction? ==>
           match FormIsValid(fields)
           case Err(e) => p == Err(e)
           case Ok(valid) => p == Ok(Obj(map["valid" := Bool(valid)])))
  {
  }

  /** The reaction applied to each child of an addressed sub-form: only submit-failed has one. */
  function SubFieldReaction(r: Reaction, subField: Value): (p: Value)
    ensures !r.SubmitFailedReaction? ==> p == subField
    ensures r.SubmitFailedReaction? ==>
      && Get(p, "submitFailed") == BoolOf(r.submitFailed) && Get(p, "touched") == Bool(true)
      && Get(p, "submitted") == And(Get(subField, "submitted"), Not(r.submitFailed))
  {
    match r
    case SubmitFailedReaction(submitFailed) => Obj(map[
        "submitFailed" := BoolOf(submitFailed),
        "submitted" := And(Get(subField, "submitted"), Not(submitFailed)),
        "touched" := Bool(true)])
    case _ => subField
  }

  /**
   * `mapFields(state, subField => merge(subField, subFieldReaction(subField)))`: every entry
   * but `$form`, each merged with its reaction. The submit-failed reaction reads each child,
   * so a missing child throws.
   */
  function MapFields(state: Value, r: Reaction): (m: Result<Attrs>)
  {
    var es := Entries(state);
    if r.SubmitFailedReaction? && exists k :: k in es && k != "$form" && (es[k] == Undef || es[k] == Null) then
      Err(NullAccess)
    else Ok(map k | k in es && k != "$form" :: Icepick.Merge(es[k], SubFieldReaction(r, es[k])))
  }

  /**
   * `mapFields` keeps every key but `$form` and merges each entry with its sub-field
   * reaction, which is the entry itself except under submit-failed; that one fails exactly
   * when some entry is missing.
   */
  lemma MapFieldsEffect(state: Value, r: Reaction)
    ensures var m := MapFields(state, r);
      && (m.Err? <==> (r.SubmitFailedReaction? &&
           exists k :: k in Entries(state) && k != "$form" && (Entries(state)[k] == Undef || Entries(state)[k] == Null)))
      && (m.Ok? ==> m.value.Keys == Entries(state).Keys - {"$form"})
      && (m.Ok? && !r.SubmitFailedReaction? ==> forall k :: k in m.value ==> m.value[k] == Entries(state)[k])
      && (m.Ok? ==> forall k :: k in m.value ==>
           m.value[k] == Icepick.Merge(Entries(state)[k], SubFieldReaction(r, Entries(state)[k])))
  {
    MergeSelfAll(Entries(state));
  }

  lemma MergeSelfAll(es: Attrs)
    ensures forall k :: k in es ==> Icepick.Merge(es[k], es[k]) == es[k]
  {
    forall k | k in es
      ensures Icepick.Merge(es[k], es[k]) == es[k]
    {
      Icepick.MergeSelf(es[k]);
    }
  }

  /** The record an update at a node touches: its `$form` when it is a sub-form, else the node. */
  function RecordOf(node: Value): Value
  {
    if HasKey(node, "$form") then Get(node, "$form") else node
  }

  /**
   * The end of `recurse`: the addressed node. A sub-form gets the field reaction on its
   * `$form` and the sub-field reaction on each child; a field record gets the field reaction.
   * Asking an `undefined` or `null` node for its own properties throws.
   */
  function UpdateRecord(node: Value, r: Reaction, fieldForm: Value): (res: Result<Value>)
    ensures node == Undef || node == Null ==> res == Err(MissingSegment)
  {
    if node == Undef || node == Null then Err(MissingSegment)
    else if HasKey(node, "$form") then
      var meta := Get(node, "$form");
      match FieldReaction(r, meta, fieldForm)
      case Err(e) => Err(e)
      case Ok(patch) =>
        match MapFields(node, r)
        case Err(e) => Err(e)
        case Ok(children) => Ok(Icepick.Merge(node, Obj(children["$form" := Icepick.Merge(meta, patch)])))
    else
      match FieldReaction(r, node, fieldForm)
      case Err(e) => Err(e)
      case Ok(patch) => Ok(Icepick.Merge(node, patch))
  }

  /** `recurse` stops at an empty path or at the single empty key a trailing `[]` leaves. */
  predicate IsTerminal(path: seq<string>)
  {
    |path| == 0 || (|path| == 1 && path[0] == "")
  }

  /**
   * The shape of `recurse`, with the terminal update (`leaf`) and the step back up (`climb`)
   * as parameters: descend along `path`, requiring every node on the way, update the addressed
   * node and climb back, each step taking the parent and its updated child.
   */
  function Walk(node: Value, path: seq<string>, leaf: Value -> Result<Value>,
                climb: (Value, string, Value) -> Result<Value>): Result<Value>
    decreases |path|
  {
    if IsTerminal(path) then leaf(node)
    else if node == Undef || node == Null then Err(MissingSegment)
    else
      match Walk(Get(node, path[0]), path[1..], leaf, climb)
      case Err(e) => Err(e)
      case Ok(child) => climb(node, path[0], child)
  }

  /**
   * `recurse(subState, path)`: descend along `path`, update the addressed record, and on the
   * way back merge each updated child into its parent and apply the form reaction to the
   * parent's `$form`. Every segment on the way must exist.
   */
  function Recurse(node: Value, path: seq<string>, r: Reaction, fieldForm: Value): Result<Value>
  {
    Walk(node, path, Leaf(r, fieldForm), Step(r))
  }

  /** The terminal update of `recurse`, as a function of the addressed node. */
  function Leaf(r: Reaction, fieldForm: Value): Value -> Result<Value>
  {
    node => UpdateRecord(node, r, fieldForm)
  }

  /** The step back up of `recurse`, as a function of the parent, the key and the new child. */
  function Step(r: Reaction): (Value, string, Value) -> Result<Value>
  {
    (node, k, child) => Climb(node, k, child, r)
  }

  /**
   * A step back up that grafts: into a plain object it puts a child that extends the old one
   * in place and keeps every other key but `$form`; anything else it returns as it was. The
   * result extends the parent whenever the child extends the old child.
   */
  ghost predicate Grafts(climb: (Value, string, Value) -> Result<Value>)
  {
    && KeepsSiblings(climb)
    && (forall n, k, c :: climb(n, k, c).Ok? && n.Obj? && k != "$form" && Icepick.Extends(Get(n, k), c) ==>
          Get(climb(n, k, c).value, k) == c)
    && (forall n, k, c :: climb(n, k, c).Ok? && k != "$form" && Icepick.Extends(Get(n, k), c) ==>
          Icepick.Extends(n, climb(n, k, c).value))
  }

  /** A step back up that keeps every key of a plain object but the child's and `$form`. */
  ghost predicate KeepsSiblings(climb: (Value, string, Value) -> Result<Value>)
  {
    && (forall n, k, c, j :: climb(n, k, c).Ok? && n.Obj? && j != k && j != "$form" ==>
          Get(climb(n, k, c).value, j) == Get(n, j))
    && (forall n, k, c :: climb(n, k, c).Ok? && !n.Obj? ==> climb(n, k, c).value == n)
  }

  /** A terminal update that only adds: its result extends the node it was given. */
  ghost predicate Grows(leaf: Value -> Result<Value>)
  {
    forall x :: leaf(x).Ok? ==> Icepick.Extends(x, leaf(x).value)
  }

  /**
   * One step back up `recurse`: the updated child is merged into its parent, and the form
   * reaction, which sees the parent's `$form` and the parent with its new child, is merged
   * into that `$form`.
   */
  function Climb(node: Value, k: string, child: Value, r: Reaction): Result<Value>
  {
    var updated := Icepick.Merge(node, Obj(map[k := child]));
    var meta := Get(updated, "$form");
    match FormReaction(r, meta, updated)
    case Err(e) => Err(e)
    case Ok(patch) => Ok(Icepick.Merge(updated, Obj(map["$form" := Icepick.Merge(meta, patch)])))
  }

  /**
   * Climbing into a plain object with a child other than `$form`: the child is merged into the
   * old one, every other key but `$form` is kept, and the `$form` is merged with the form
   * reaction's patch.
   */
  lemma ClimbEffect(node: Value, k: string, child: Value, r: Reaction)
    requires Climb(node, k, child, r).Ok? && node.Obj? && k != "$form"
    ensures var res := Climb(node, k, child, r).value;
      var meta := Get(node, "$form");
      var updated := Icepick.Merge(node, Obj(map[k := child]));
      && res.Obj?
      && Get(res, k) == Icepick.MergeValue(Get(node, k), child)
      && FormReaction(r, meta, updated).Ok?
      && Get(res, "$form") == Icepick.Merge(meta, FormReaction(r, meta, updated).value)
  {
    var meta := Get(node, "$form");
    var updated := Icepick.Merge(node, Obj(map[k := child]));
    Icepick.MergeAt(node, Obj(map[k := child]), k);
    Icepick.MergeAt(node, Obj(map[k := child]), "$form");
    var patch := FormReaction(r, meta, updated).value;
    var f := Obj(map["$form" := Icepick.Merge(meta, patch)]);
    Icepick.MergeAt(updated, f, k);
    Icepick.MergeAt(updated, f, "$form");
    Icepick.MergeAbsorbs(meta, patch);
  }

  lemma ClimbKeeps(node: Value, k: string, child: Value, r: Reaction, j: string)
    requires Climb(node, k, child, r).Ok? && node.Obj? && j != k && j != "$form"
    ensures Get(Climb(node, k, child, r).value, j) == Get(node, j)
  {
    var updated := Icepick.Merge(node, Obj(map[k := child]));
    var meta := Get(updated, "$form");
    Icepick.MergeAt(node, Obj(map[k := child]), j);
    var patch := FormReaction(r, meta, updated).value;
    Icepick.MergeAt(updated, Obj(map["$form" := Icepick.Merge(meta, patch)]), j);
  }

  /**
   * Climbing with a child that extends the old one gives a node that extends the old node:
   * the step back up only adds.
   */
  lemma ClimbExtends(node: Value, k: string, child: Value, r: Reaction)
    requires Climb(node, k, child, r).Ok? && k != "$form" && Icepick.Extends(Get(node, k), child)
    ensures Icepick.Extends(node, Climb(node, k, child, r).value)
  {
    var res := Climb(node, k, child, r).value;
    if node.Obj? {
      ClimbEffect(node, k, child, r);
      var meta := Get(node, "$form");
      var updated := Icepick.Merge(node, Obj(map[k := child]));
      var patch := FormReaction(r, meta, updated).value;
      Icepick.MergeAbsorbs(meta, patch);
      forall j | j in res.fields
        ensures Icepick.Extends(Get(node, j), res.fields[j])
      {
        if j != k && j != "$form" {
          ClimbKeeps(node, k, child, r, j);
          Icepick.ExtendsSelf(Get(node, j));
        }
      }
      Icepick.ExtendsPointwise(node, res);
    } else {
      Icepick.ExtendsSelf(node);
    }
  }

  /** Climbing into anything but a plain object leaves it as it is. */
  lemma ClimbScalar(node: Value, k: string, child: Value, r: Reaction)
    requires Climb(node, k, child, r).Ok? && !node.Obj?
    ensures Climb(node, k, child, r).value == node
  {
  }

  /** The step of `recurse` grafts, whatever the reaction. */
  lemma StepGrafts(r: Reaction)
    ensures Grafts(Step(r))
  {
    StepKeepsSiblings(r);
    forall n, k, c | Climb(n, k, c, r).Ok? && n.Obj? && k != "$form" && Icepick.Extends(Get(n, k), c)
      ensures Get(Climb(n, k, c, r).value, k) == c
    {
      ClimbEffect(n, k, c, r);
    }
    forall n, k, c | Climb(n, k, c, r).Ok? && k != "$form" && Icepick.Extends(Get(n, k), c)
      ensures Icepick.Extends(n, Climb(n, k, c, r).value)
    {
      ClimbExtends(n, k, c, r);
    }
  }

  /** The step of `recurse` keeps the siblings of the child it puts back, whatever the reaction. */
  lemma StepKeepsSiblings(r: Reaction)
    ensures KeepsSiblings(Step(r))
  {
    forall n, k, c, j | Climb(n, k, c, r).Ok? && n.Obj? && j != k && j != "$form"
      ensures Get(Climb(n, k, c, r).value, j) == Get(n, j)
    {
      ClimbKeeps(n, k, c, r, j);
    }
    forall n, k, c | Climb(n, k, c, r).Ok? && !n.Obj?
      ensures Climb(n, k, c, r).value == n
    {
      ClimbScalar(n, k, c, r);
    }
  }

  /** The terminal update of `recurse` only adds, whatever the reaction. */
  lemma LeafGrows(r: Reaction, fieldForm: Value)
    ensures Grows(Leaf(r, fieldForm))
  {
    forall x | UpdateRecord(x, r, fieldForm).Ok?
      ensures Icepick.Extends(x, UpdateRecord(x, r, fieldForm).value)
    {
      UpdateRecordGrows(x, r, fieldForm);
    }
  }

  /** The terminal update merges into the node, so its result extends it. */
  lemma UpdateRecordGrows(node: Value, r: Reaction, fieldForm: Value)
    requires UpdateRecord(node, r, fieldForm).Ok?
    ensures Icepick.Extends(node, UpdateRecord(node, r, fieldForm).value)
  {
    if HasKey(node, "$form") {
      var meta := Get(node, "$form");
      var patch := FieldReaction(r, meta, fieldForm).value;
      var children := MapFields(node, r).value;
      Icepick.MergeAbsorbs(node, Obj(children["$form" := Icepick.Merge(meta, patch)]));
    } else {
      Icepick.MergeAbsorbs(node, FieldReaction(r, node, fieldForm).value);
    }
  }

  /**
   * A grafting walk whose terminal update only adds leaves a node that extends the one it
   * started from.
   */
  lemma {:induction false} WalkExtends(node: Value, path: seq<string>, leaf: Value -> Result<Value>,
                                       climb: (Value, string, Value) -> Result<Value>)
    requires Grafts(climb) && Grows(leaf) && Walk(node, path, leaf, climb).Ok? && NoMeta(Target(path))
    ensures Icepick.Extends(node, Walk(node, path, leaf, climb).value)
    decreases |path|
  {
    if !IsTerminal(path) {
      assert Target(path)[0] == path[0];
      NoMetaTail(Target(path));
      WalkExtends(Get(node, path[0]), path[1..], leaf, climb);
    }
  }

  /** `path.slice(0, -1)` */
  function Butlast(path: seq<string>): (r: seq<string>)
    ensures |path| > 0 ==> r + [path[|path| - 1]] == path
    ensures |path| == 0 ==> r == []
  {
    if |path| == 0 then [] else path[..|path| - 1]
  }

  /**
   * `formActionReducer(state, action, path)`: an action type without a reaction leaves the
   * state as it is; otherwise the reaction runs along `path`, the blur reaction reading the
   * `$form` next to the addressed record.
   */
  function FormActionReducer(state: Value, a: Actions.Action, path: seq<string>): (res: Result<Value>)
    ensures GetReaction(a).None? ==> res == Ok(state)
    ensures GetReaction(a).Some? ==>
      res == Recurse(state, path, GetReaction(a).value, Lodash.GetIn(state, Butlast(path) + ["$form"]))
  {
    match GetReaction(a)
    case None => Ok(state)
    case Some(r) => Recurse(state, path, r, Lodash.GetIn(state, Butlast(path) + ["$form"]))
  }

  /**
   * `createFormReducer(model, initialState)` applied to `state` and `a`: an `undefined`
   * initial state defaults to `{}`; an `undefined` state (the store has none yet) defaults to
   * the initial tree, a `null` one does not; actions without a model, or outside the model's
   * path, change nothing; the rest run on the path below the model.
   */
  function CreateFormReducer(model: string, initialState: Value, state: Value, a: Actions.Action): (res: Result<Value>)
    ensures var init := if initialState == Undef then Obj(map[]) else initialState;
      var s := if state == Undef then CreateInitialState(init) else state;
      (a.model == "" || !IsPrefix(ToPath(model), ToPath(a.model))) ==> res == Ok(s)
    ensures var init := if initialState == Undef then Obj(map[]) else initialState;
      var s := if state == Undef then CreateInitialState(init) else state;
      a.model != "" && IsPrefix(ToPath(model), ToPath(a.model)) ==>
        res == FormActionReducer(s, a, ToPath(a.model)[|ToPath(model)|..])
  {
    var init := if initialState == Undef then Obj(map[]) else initialState;
    var s := if state == Undef then CreateInitialState(init) else state;
    if a.model == "" then Ok(s)
    else
      var modelPath := ToPath(model);
      var path := ToPath(a.model);
      if |path| < |modelPath| || path[..|modelPath|] != modelPath then Ok(s)
      else FormActionReducer(s, a, path[|modelPath|..])
  }

  /**
   * With neither an initial state nor a state, the reducer starts from the tree of `{}`: a form
   * whose only key is `$form`, the initial field state with `initialValue: {}`.
   */
  lemma DefaultFormState(model: string, a: Actions.Action)
    requires a.model == ""
    ensures CreateFormReducer(model, Undef, Undef, a)
      == Ok(Obj(map["$form" := Obj(InitialFieldState["initialValue" := Obj(map[])])]))
  {
    var e := Obj(map[]);
    InitialStateShape(e);
    assert Entries(e).Keys == {};
    var r := CreateInitialState(e);
    assert r.fields.Keys == {"$form"};
    assert r.fields == map["$form" := InitialRecord(e)];
  }

  /** No segment of the path is the metadata key itself. */
  predicate NoMeta(path: seq<string>)
  {
    forall i :: 0 <= i < |path| ==> path[i] != "$form"
  }

  /**
   * Shape mirroring: below any present path that avoids `$form`, the initial metadata tree is
   * the initial metadata tree of the sub-value found there.
   */
  lemma {:induction false} InitialStateMirrors(v: Value, path: seq<string>)
    requires Lodash.HasPath(v, path) && NoMeta(path)
    ensures Lodash.GetIn(CreateInitialState(v), path) == CreateInitialState(Lodash.GetIn(v, path))
    decreases |path|
  {
    if |path| > 0 {
      var k := path[0];
      HasKeyEntries(v, k);
      InitialStateShape(v);
      assert Get(CreateInitialState(v), k) == CreateInitialState(Get(v, k));
      InitialStateMirrors(Get(v, k), path[1..]);
    }
  }

  /** Every node of the initial tree remembers its value: sub-forms in `$form`, fields directly. */
  lemma InitialStateRemembers(v: Value, path: seq<string>)
    requires Lodash.HasPath(v, path) && NoMeta(path)
    ensures var n := Lodash.GetIn(v, path); var m := Lodash.GetIn(CreateInitialState(v), path);
      && (IsContainer(n) ==> Get(Get(m, "$form"), "initialValue") == n)
      && (!IsContainer(n) ==> Get(m, "initialValue") == n)
  {
    InitialStateMirrors(v, path);
    var n := Lodash.GetIn(v, path);
    InitialRecordFields(n);
    InitialStateShape(n);
    if IsContainer(n) {
      assert Get(CreateInitialState(n), "$form") == InitialRecord(n);
    }
  }

  /**
   * Reading the initial tree: at any present path of the value that avoids `$form`, `getField`
   * answers the initial record of a leaf, and for a node a sub-form whose `$form` is the
   * node's initial record.
   */
  lemma GetFieldOfInitial(v: Value, path: string)
    requires Lodash.HasPath(v, CastPath(path)) && NoMeta(CastPath(path))
    ensures var n := Lodash.GetIn(v, CastPath(path)); var r := GetField(CreateInitialState(v), path);
      && r.Ok?
      && (!IsContainer(n) ==> r.value == InitialRecord(n))
      && (IsContainer(n) ==> r.value.Obj? && Get(r.value, "$form") == InitialRecord(n))
  {
    var n := Lodash.GetIn(v, CastPath(path));
    InitialStateShape(v);
    InitialStateMirrors(v, CastPath(path));
    InitialStateShape(n);
  }

  /** The record addressed by a path: the path without the empty key a trailing `[]` leaves. */
  function Target(path: seq<string>): (t: seq<string>)
    ensures IsTerminal(path) ==> t == []
    ensures !IsTerminal(path) ==> |t| > 0 && t[0] == path[0] && t[1..] == Target(path[1..])
  {
    if |path| > 0 && path[|path| - 1] == "" then path[..|path| - 1] else path
  }

  /** Every node strictly above the addressed record is a plain object. */
  predicate Spine(v: Value, path: seq<string>)
    decreases |path|
  {
    |path| == 0 || (v.Obj? && Spine(Get(v, path[0]), path[1..]))
  }

  /** A grafting walk leaves at the addressed path what the terminal update makes of the node there. */
  lemma {:induction false} WalkTarget(node: Value, path: seq<string>, leaf: Value -> Result<Value>,
                                      climb: (Value, string, Value) -> Result<Value>)
    requires Grafts(climb) && Grows(leaf) && Walk(node, path, leaf, climb).Ok?
    requires Spine(node, Target(path)) && NoMeta(Target(path))
    ensures var t := Target(path);
      leaf(Lodash.GetIn(node, t)) == Ok(Lodash.GetIn(Walk(node, path, leaf, climb).value, t))
    decreases |path|
  {
    if !IsTerminal(path) {
      var t := Target(path);
      assert t[0] == path[0];
      NoMetaTail(t);
      WalkExtends(Get(node, path[0]), path[1..], leaf, climb);
      WalkTarget(Get(node, path[0]), path[1..], leaf, climb);
    }
  }

  /** Off the addressed path, a grafting walk changes nothing: every sibling at every level is kept. */
  lemma {:induction false} WalkSiblings(node: Value, path: seq<string>, leaf: Value -> Result<Value>,
                                        climb: (Value, string, Value) -> Result<Value>, i: nat, k: string)
    requires Grafts(climb) && Grows(leaf) && Walk(node, path, leaf, climb).Ok?
    requires NoMeta(Target(path))
    requires i < |Target(path)| && k != Target(path)[i] && k != "$form"
    ensures var t := Target(path);
      Lodash.GetIn(Walk(node, path, leaf, climb).value, t[..i] + [k]) == Lodash.GetIn(node, t[..i] + [k])
    decreases i
  {
    var t := Target(path);
    assert t[0] == path[0];
    var child := Walk(Get(node, path[0]), path[1..], leaf, climb).value;
    var res := Walk(node, path, leaf, climb).value;
    assert res == climb(node, path[0], child).value;
    if node.Obj? {
      if i == 0 {
        assert t[..0] + [k] == [k];
        assert Get(res, k) == Get(node, k);
      } else {
        SiblingPathTail(path, i, k);
        NoMetaTail(t);
        WalkExtends(Get(node, path[0]), path[1..], leaf, climb);
        assert Get(res, path[0]) == child;
        WalkSiblings(Get(node, path[0]), path[1..], leaf, climb, i - 1, k);
      }
    }
  }

  /**
   * Descending along a prefix of the path commutes with a grafting walk: what the walk leaves
   * at `pre` is what the walk along the rest of the path makes of the node there.
   */
  lemma {:induction false} WalkAt(node: Value, pre: seq<string>, rest: seq<string>, leaf: Value -> Result<Value>,
                                  climb: (Value, string, Value) -> Result<Value>)
    requires Grafts(climb) && Grows(leaf) && !IsTerminal(rest) && Walk(node, pre + rest, leaf, climb).Ok?
    requires Spine(node, pre) && NoMeta(pre) && NoMeta(Target(pre + rest))
    ensures Walk(Lodash.GetIn(node, pre), rest, leaf, climb).Ok?
    ensures Lodash.GetIn(Walk(node, pre + rest, leaf, climb).value, pre) ==
      Walk(Lodash.GetIn(node, pre), rest, leaf, climb).value
    decreases |pre|
  {
    if |pre| == 0 {
      assert pre + rest == rest;
    } else {
      Seqs.ConsAppend(pre, rest);
      NoMetaTail(pre);
      NoMetaTail(Target(pre + rest));
      WalkExtends(Get(node, pre[0]), pre[1..] + rest, leaf, climb);
      WalkAt(Get(node, pre[0]), pre[1..], rest, leaf, climb);
    }
  }

  /** The addressed path of a suffix is the suffix of the addressed path. */
  lemma TargetSuffix(path: seq<string>, j: nat)
    requires j <= |Target(path)|
    ensures Target(path[j..]) == Target(path)[j..]
  {
  }

  lemma NoMetaSuffix(path: seq<string>, j: nat)
    requires j <= |path| && NoMeta(path)
    ensures NoMeta(path[j..])
  {
    forall m | 0 <= m < |path| - j ensures path[j..][m] != "$form" { assert path[j..][m] == path[j + m]; }
  }

  lemma NoMetaTail(path: seq<string>)
    requires |path| > 0 && NoMeta(path)
    ensures NoMeta(path[1..])
  {
    forall j | 0 <= j < |path| - 1 ensures path[1..][j] != "$form" { assert path[1..][j] == path[j + 1]; }
  }

  lemma NoMetaPrefix(path: seq<string>, i: nat)
    requires i <= |path| && NoMeta(path)
    ensures NoMeta(path[..i])
  {
    forall j | 0 <= j < i ensures path[..i][j] != "$form" { assert path[..i][j] == path[j]; }
  }

  lemma SiblingPathTail(path: seq<string>, i: nat, k: string)
    requires 0 < i < |Target(path)|
    ensures var q := Target(path)[..i] + [k];
      q[0] == path[0] && q[1..] == Target(path[1..])[..i - 1] + [k]
  {
    var t := Target(path);
    assert t[1..] == Target(path[1..]);
    assert (t[..i] + [k])[1..] == t[1..][..i - 1] + [k];
  }

  /** The addressed path is the action's path without a trailing empty key. */
  lemma TargetPrefix(path: seq<string>, i: nat)
    requires i < |Target(path)|
    ensures Target(path)[..i] == path[..i] && path[i] == Target(path)[i]
    ensures path == path[..i] + path[i..] && !IsTerminal(path[i..]) && path[i..][0] == Target(path)[i]
  {
    assert path == path[..i] + path[i..];
  }

  /** Every proper prefix of a spine path ends at a plain object. */
  lemma {:induction false} SpineAt(v: Value, path: seq<string>, i: nat)
    requires Spine(v, path) && i < |path|
    ensures Spine(v, path[..i]) && Lodash.GetIn(v, path[..i]).Obj?
    decreases i
  {
    if i > 0 {
      SpineAt(Get(v, path[0]), path[1..], i - 1);
      assert path[1..][..i - 1] == path[..i][1..];
    }
  }

  /** The addressed record after `recurse` is what the terminal update makes of it. */
  lemma RecurseTarget(node: Value, path: seq<string>, r: Reaction, fieldForm: Value)
    requires Recurse(node, path, r, fieldForm).Ok?
    requires Spine(node, Target(path)) && NoMeta(Target(path))
    ensures var t := Target(path);
      UpdateRecord(Lodash.GetIn(node, t), r, fieldForm) == Ok(Lodash.GetIn(Recurse(node, path, r, fieldForm).value, t))
  {
    StepGrafts(r);
    LeafGrows(r, fieldForm);
    WalkTarget(node, path, Leaf(r, fieldForm), Step(r));
  }

  /** Off the addressed path, `recurse` changes nothing: every sibling at every level is kept. */
  lemma RecurseSiblings(node: Value, path: seq<string>, r: Reaction, fieldForm: Value, i: nat, k: string)
    requires Recurse(node, path, r, fieldForm).Ok?
    requires NoMeta(Target(path))
    requires i < |Target(path)| && k != Target(path)[i] && k != "$form"
    ensures var t := Target(path);
      Lodash.GetIn(Recurse(node, path, r, fieldForm).value, t[..i] + [k]) == Lodash.GetIn(node, t[..i] + [k])
  {
    StepGrafts(r);
    LeafGrows(r, fieldForm);
    WalkSiblings(node, path, Leaf(r, fieldForm), Step(r), i, k);
  }

  /**
   * Every node above the addressed record: its `$form` is merged with the form reaction,
   * which sees that `$form` and the node with its updated child.
   */
  lemma RecurseAncestor(node: Value, path: seq<string>, r: Reaction, fieldForm: Value, i: nat)
    requires Recurse(node, path, r, fieldForm).Ok?
    requires Spine(node, Target(path)) && NoMeta(Target(path))
    requires i < |Target(path)|
    ensures var t := Target(path); var res := Recurse(node, path, r, fieldForm).value;
      var n := Lodash.GetIn(node, t[..i]);
      var meta := Get(n, "$form");
      var updated := Icepick.Merge(n, Obj(map[t[i] := Lodash.GetIn(res, t[..i + 1])]));
      && FormReaction(r, meta, updated).Ok?
      && Lodash.GetIn(res, t[..i] + ["$form"]) == Icepick.Merge(meta, FormReaction(r, meta, updated).value)
  {
    var t := Target(path);
    var res := Recurse(node, path, r, fieldForm).value;
    var n := Lodash.GetIn(node, t[..i]);
    StepGrafts(r);
    LeafGrows(r, fieldForm);
    WalkAncestor(node, path, Leaf(r, fieldForm), Step(r), i);
    SpineAt(node, t, i);
    ClimbEffect(n, t[i], Lodash.GetIn(res, t[..i + 1]), r);
    Lodash.GetInAppend(res, t[..i], ["$form"]);
  }

  /**
   * At every node above the addressed record, a grafting walk leaves what the step back up
   * makes of that node and of the walk's result one level down.
   */
  lemma WalkAncestor(node: Value, path: seq<string>, leaf: Value -> Result<Value>,
                     climb: (Value, string, Value) -> Result<Value>, i: nat)
    requires Grafts(climb) && Grows(leaf) && Walk(node, path, leaf, climb).Ok?
    requires Spine(node, Target(path)) && NoMeta(Target(path)) && i < |Target(path)|
    ensures var t := Target(path); var res := Walk(node, path, leaf, climb).value;
      climb(Lodash.GetIn(node, t[..i]), t[i], Lodash.GetIn(res, t[..i + 1])) == Ok(Lodash.GetIn(res, t[..i]))
  {
    var t := Target(path);
    var pre := t[..i];
    var rest := path[i..];
    TargetPrefix(path, i);
    SpineAt(node, t, i);
    NoMetaPrefix(t, i);
    WalkAt(node, pre, rest, leaf, climb);
    var res := Walk(node, path, leaf, climb).value;
    var n := Lodash.GetIn(node, pre);
    var c := Walk(Get(n, t[i]), rest[1..], leaf, climb).value;
    assert Walk(n, rest, leaf, climb) == climb(n, t[i], c);
    assert rest[1..] == path[i + 1..];
    TargetSuffix(path, i + 1);
    NoMetaSuffix(t, i + 1);
    WalkExtends(Get(n, t[i]), rest[1..], leaf, climb);
    assert Get(Lodash.GetIn(res, pre), t[i]) == c;
    Lodash.GetInAppend(res, pre, [t[i]]);
    assert Lodash.GetIn(Lodash.GetIn(res, pre), [t[i]]) == c;
    Seqs.PrefixSnoc(t, i);
  }

  /** The terminal update on a plain-object node: the record is merged with the field patch. */
  lemma UpdateRecordEffect(node: Value, r: Reaction, fieldForm: Value)
    requires UpdateRecord(node, r, fieldForm).Ok? && node.Obj?
    ensures var res := UpdateRecord(node, r, fieldForm).value;
      && FieldReaction(r, RecordOf(node), fieldForm).Ok?
      && (HasKey(res, "$form") <==> HasKey(node, "$form"))
      && RecordOf(res) == Icepick.Merge(RecordOf(node), FieldReaction(r, RecordOf(node), fieldForm).value)
      && (HasKey(node, "$form") && !r.SubmitFailedReaction? ==> forall k :: k != "$form" ==> Get(res, k) == Get(node, k))
  {
    FieldReactionEffect(r, RecordOf(node), fieldForm);
    if HasKey(node, "$form") {
      UpdateSubForm(node, r, fieldForm);
      if !r.SubmitFailedReaction? {
        forall k | k != "$form"
          ensures Get(UpdateRecord(node, r, fieldForm).value, k) == Get(node, k)
        {
          UpdateSubFormKeeps(node, r, fieldForm, k);
        }
      }
    } else {
      UpdateField(node, r, fieldForm);
    }
  }

  /** An addressed sub-form keeps its `$form` key, which is merged with the field patch. */
  lemma UpdateSubForm(node: Value, r: Reaction, fieldForm: Value)
    requires UpdateRecord(node, r, fieldForm).Ok? && node.Obj? && HasKey(node, "$form")
    ensures var res := UpdateRecord(node, r, fieldForm).value;
      var meta := Get(node, "$form");
      && FieldReaction(r, meta, fieldForm).Ok?
      && HasKey(res, "$form")
      && Get(res, "$form") == Icepick.Merge(meta, FieldReaction(r, meta, fieldForm).value)
  {
    var meta := Get(node, "$form");
    FieldReactionEffect(r, meta, fieldForm);
    var patch := FieldReaction(r, meta, fieldForm).value;
    var children := MapFields(node, r).value;
    Icepick.MergeAt(node, Obj(children["$form" := Icepick.Merge(meta, patch)]), "$form");
    Icepick.MergeAbsorbs(meta, patch);
  }

  /** Every child of an addressed sub-form is kept unless the reaction is submit-failed. */
  lemma UpdateSubFormKeeps(node: Value, r: Reaction, fieldForm: Value, k: string)
    requires UpdateRecord(node, r, fieldForm).Ok? && node.Obj? && HasKey(node, "$form")
    requires !r.SubmitFailedReaction? && k != "$form"
    ensures Get(UpdateRecord(node, r, fieldForm).value, k) == Get(node, k)
  {
    MapFieldsEffect(node, r);
    var children := MapFields(node, r).value;
    if k in node.fields {
      assert k in children && children[k] == node.fields[k];
    }
  }

  /** An addressed field record is merged with the field patch, which adds no `$form`. */
  lemma UpdateField(node: Value, r: Reaction, fieldForm: Value)
    requires UpdateRecord(node, r, fieldForm).Ok? && node.Obj? && !HasKey(node, "$form")
    ensures var res := UpdateRecord(node, r, fieldForm).value;
      && FieldReaction(r, node, fieldForm).Ok?
      && !HasKey(res, "$form")
      && res == Icepick.Merge(node, FieldReaction(r, node, fieldForm).value)
  {
    FieldReactionEffect(r, node, fieldForm);
  }

  /** The record the reducer addresses: the terminal update of what was at the path. */
  lemma AddressedRecord(state: Value, a: Actions.Action, path: seq<string>)
    requires GetReaction(a).Some? && FormActionReducer(state, a, path).Ok?
    requires Spine(state, Target(path)) && NoMeta(Target(path))
    requires Lodash.GetIn(state, Target(path)).Obj?
    ensures var t := Target(path); var res := FormActionReducer(state, a, path).value;
      var ff := Lodash.GetIn(state, Butlast(path) + ["$form"]);
      var rec := RecordOf(Lodash.GetIn(state, t));
      && FieldReaction(GetReaction(a).value, rec, ff).Ok?
      && RecordOf(Lodash.GetIn(res, t)) == Icepick.Merge(rec, FieldReaction(GetReaction(a).value, rec, ff).value)
      && (HasKey(Lodash.GetIn(res, t), "$form") <==> HasKey(Lodash.GetIn(state, t), "$form"))
  {
    var ff := Lodash.GetIn(state, Butlast(path) + ["$form"]);
    var r := GetReaction(a).value;
    RecurseTarget(state, path, r, ff);
    UpdateRecordEffect(Lodash.GetIn(state, Target(path)), r, ff);
  }

  /**
   * For the reactions with a fixed form patch (focus, pristine, dirty, pending, submitted,
   * submit-failed) every `$form` above the addressed record is merged with that patch.
   */
  lemma AncestorsPatched(state: Value, a: Actions.Action, path: seq<string>, i: nat)
    requires GetReaction(a).Some? && ConstFormPatch(GetReaction(a).value).Some?
    requires FormActionReducer(state, a, path).Ok?
    requires Spine(state, Target(path)) && NoMeta(Target(path)) && i < |Target(path)|
    ensures var t := Target(path); var res := FormActionReducer(state, a, path).value;
      Lodash.GetIn(res, t[..i] + ["$form"]) ==
        Icepick.Merge(Lodash.GetIn(state, t[..i] + ["$form"]), Obj(ConstFormPatch(GetReaction(a).value).value))
  {
    var t := Target(path);
    var ff := Lodash.GetIn(state, Butlast(path) + ["$form"]);
    RecurseAncestor(state, path, GetReaction(a).value, ff, i);
    Lodash.GetInAppend(state, t[..i], ["$form"]);
    var n := Lodash.GetIn(state, t[..i]);
    var res := FormActionReducer(state, a, path).value;
    FormReactionEffect(GetReaction(a).value, Get(n, "$form"),
      Icepick.Merge(n, Obj(map[t[i] := Lodash.GetIn(res, t[..i + 1])])));
  }

  /**
   * FOCUS marks the addressed record and the `$form` of every node above it as focused, and
   * leaves every sibling along the way as it was.
   */
  lemma FocusMarksPath(state: Value, a: Actions.Action, path: seq<string>)
    requires a.Focus? && FormActionReducer(state, a, path).Ok?
    requires Spine(state, Target(path)) && NoMeta(Target(path))
    ensures var t := Target(path); var res := FormActionReducer(state, a, path).value;
      && (RecordOf(Lodash.GetIn(state, t)).Obj? ==> Get(RecordOf(Lodash.GetIn(res, t)), "focus") == Bool(true))
      && (forall i :: 0 <= i < |t| && Lodash.GetIn(state, t[..i] + ["$form"]).Obj? ==>
            Get(Lodash.GetIn(res, t[..i] + ["$form"]), "focus") == Bool(true))
      && (forall i, k :: 0 <= i < |t| && k != t[i] && k != "$form" ==>
            Lodash.GetIn(res, t[..i] + [k]) == Lodash.GetIn(state, t[..i] + [k]))
  {
    var t := Target(path);
    if RecordOf(Lodash.GetIn(state, t)).Obj? {
      FocusRecord(state, a, path);
    }
    forall i | 0 <= i < |t| && Lodash.GetIn(state, t[..i] + ["$form"]).Obj?
      ensures Get(Lodash.GetIn(FormActionReducer(state, a, path).value, t[..i] + ["$form"]), "focus") == Bool(true)
    {
      FocusAncestor(state, a, path, i);
    }
    forall i, k | 0 <= i < |t| && k != t[i] && k != "$form"
      ensures Lodash.GetIn(FormActionReducer(state, a, path).value, t[..i] + [k]) == Lodash.GetIn(state, t[..i] + [k])
    {
      ReducerKeepsSiblings(state, a, path, i, k);
    }
  }

  lemma FocusRecord(state: Value, a: Actions.Action, path: seq<string>)
    requires a.Focus? && FormActionReducer(state, a, path).Ok?
    requires Spine(state, Target(path)) && NoMeta(Target(path))
    requires RecordOf(Lodash.GetIn(state, Target(path))).Obj?
    ensures Get(RecordOf(Lodash.GetIn(FormActionReducer(state, a, path).value, Target(path))), "focus") == Bool(true)
  {
    ReactionOf(a);
    AddressedKey(state, a, path, "focus");
  }

  lemma FocusAncestor(state: Value, a: Actions.Action, path: seq<string>, i: nat)
    requires a.Focus? && FormActionReducer(state, a, path).Ok?
    requires Spine(state, Target(path)) && NoMeta(Target(path)) && i < |Target(path)|
    requires Lodash.GetIn(state, Target(path)[..i] + ["$form"]).Obj?
    ensures Get(Lodash.GetIn(FormActionReducer(state, a, path).value, Target(path)[..i] + ["$form"]), "focus") == Bool(true)
  {
    ReactionOf(a);
    AncestorsPatched(state, a, path, i);
  }

  /** Every action with a reaction leaves the siblings along its path as they were. */
  lemma ReducerKeepsSiblings(state: Value, a: Actions.Action, path: seq<string>, i: nat, k: string)
    requires FormActionReducer(state, a, path).Ok? && NoMeta(Target(path))
    requires i < |Target(path)| && k != Target(path)[i] && k != "$form"
    ensures var t := Target(path);
      Lodash.GetIn(FormActionReducer(state, a, path).value, t[..i] + [k]) == Lodash.GetIn(state, t[..i] + [k])
  {
    if GetReaction(a).Some? {
      RecurseSiblings(state, path, GetReaction(a).value, Lodash.GetIn(state, Butlast(path) + ["$form"]), i, k);
    }
  }

  /** Reading a key of a merged record that the patch sets to a value other than an object gives that value. */
  lemma PatchedKey(rec: Value, patch: Value, k: string)
    requires rec.Obj? && patch.Obj? && Get(patch, k) != Undef && !Get(patch, k).Obj?
    ensures Get(Icepick.Merge(rec, patch), k) == Get(patch, k)
  {
    Icepick.MergeAt(rec, patch, k);
  }

  /** The flags SET_SUBMITTED gives every record it touches. */
  predicate SubmittedFlags(rec: Value, submitted: Value)
  {
    && Get(rec, "pending") == Bool(false) && Get(rec, "submitted") == BoolOf(submitted)
    && Get(rec, "submitFailed") == Not(submitted) && Get(rec, "touched") == Bool(true)
  }

  lemma SubmittedPatchFlags(rec: Value, patch: Value, submitted: Value)
    requires rec.Obj? && patch.Obj? && SubmittedFlags(patch, submitted)
    ensures SubmittedFlags(Icepick.Merge(rec, patch), submitted)
  {
    PatchedKey(rec, patch, "pending");
    PatchedKey(rec, patch, "submitted");
    PatchedKey(rec, patch, "submitFailed");
    PatchedKey(rec, patch, "touched");
  }

  lemma SubmittedTarget(state: Value, a: Actions.Action, path: seq<string>)
    requires a.SetSubmitted? && FormActionReducer(state, a, path).Ok?
    requires Spine(state, Target(path)) && NoMeta(Target(path))
    requires RecordOf(Lodash.GetIn(state, Target(path))).Obj?
    ensures SubmittedFlags(RecordOf(Lodash.GetIn(FormActionReducer(state, a, path).value, Target(path))), a.submitted)
  {
    var r := SubmittedReaction(a.submitted);
    ReactionOf(a);
    var rec := RecordOf(Lodash.GetIn(state, Target(path)));
    var ff := Lodash.GetIn(state, Butlast(path) + ["$form"]);
    AddressedRecord(state, a, path);
    FieldReactionEffect(r, rec, ff);
    var patch := FieldReaction(r, rec, ff).value;
    assert SubmittedFlags(patch, a.submitted);
    SubmittedPatchFlags(rec, patch, a.submitted);
  }

  lemma SubmittedFormPatch(submitted: Value)
    ensures SubmittedFlags(Obj(ConstFormPatch(SubmittedReaction(submitted)).value), submitted)
  {
  }

  lemma SubmittedAncestor(state: Value, a: Actions.Action, path: seq<string>, i: nat)
    requires a.SetSubmitted? && FormActionReducer(state, a, path).Ok?
    requires Spine(state, Target(path)) && NoMeta(Target(path)) && i < |Target(path)|
    requires Lodash.GetIn(state, Target(path)[..i] + ["$form"]).Obj?
    ensures SubmittedFlags(Lodash.GetIn(FormActionReducer(state, a, path).value, Target(path)[..i] + ["$form"]), a.submitted)
  {
    var r := SubmittedReaction(a.submitted);
    ReactionOf(a);
    var patch := Obj(ConstFormPatch(r).value);
    SubmittedFormPatch(a.submitted);
    AncestorsPatched(state, a, path, i);
    SubmittedPatchFlags(Lodash.GetIn(state, Target(path)[..i] + ["$form"]), patch, a.submitted);
  }

  /**
   * SET_SUBMITTED clears `pending`, sets `submitted` to `!!submitted`, `submitFailed` to its
   * negation and `touched`, on the addressed record and on the `$form` of every node above it.
   */
  lemma SubmittedMarksPath(state: Value, a: Actions.Action, path: seq<string>)
    requires a.SetSubmitted? && FormActionReducer(state, a, path).Ok?
    requires Spine(state, Target(path)) && NoMeta(Target(path))
    ensures var t := Target(path); var res := FormActionReducer(state, a, path).value;
      && (RecordOf(Lodash.GetIn(state, t)).Obj? ==> SubmittedFlags(RecordOf(Lodash.GetIn(res, t)), a.submitted))
      && (forall i :: 0 <= i < |t| && Lodash.GetIn(state, t[..i] + ["$form"]).Obj? ==>
            SubmittedFlags(Lodash.GetIn(res, t[..i] + ["$form"]), a.submitted))
  {
    var t := Target(path);
    if RecordOf(Lodash.GetIn(state, t)).Obj? {
      SubmittedTarget(state, a, path);
    }
    forall i | 0 <= i < |t| && Lodash.GetIn(state, t[..i] + ["$form"]).Obj?
      ensures SubmittedFlags(Lodash.GetIn(FormActionReducer(state, a, path).value, t[..i] + ["$form"]), a.submitted)
    {
      SubmittedAncestor(state, a, path, i);
    }
  }

  /**
   * One key of the addressed record after the reducer: the field patch's value merged over
   * the old one where the patch has the key, the old record's value elsewhere.
   */
  lemma AddressedKey(state: Value, a: Actions.Action, path: seq<string>, k: string)
    requires GetReaction(a).Some? && FormActionReducer(state, a, path).Ok?
    requires Spine(state, Target(path)) && NoMeta(Target(path))
    requires RecordOf(Lodash.GetIn(state, Target(path))).Obj?
    ensures var t := Target(path);
      var rec := RecordOf(Lodash.GetIn(state, t));
      var p := FieldReaction(GetReaction(a).value, rec, Lodash.GetIn(state, Butlast(path) + ["$form"]));
      && p.Ok? && p.value.Obj?
      && Get(RecordOf(Lodash.GetIn(FormActionReducer(state, a, path).value, t)), k) ==
           if k in p.value.fields then Icepick.MergeValue(Get(rec, k), p.value.fields[k]) else Get(rec, k)
  {
    var rec := RecordOf(Lodash.GetIn(state, Target(path)));
    var ff := Lodash.GetIn(state, Butlast(path) + ["$form"]);
    AddressedRecord(state, a, path);
    FieldReactionEffect(GetReaction(a).value, rec, ff);
    Icepick.MergeAt(rec, FieldReaction(GetReaction(a).value, rec, ff).value, k);
  }

  /** The blur patch, given a `$form` beside the record. */
  lemma BlurPatch(field: Value, fieldForm: Value)
    requires fieldForm != Undef && fieldForm != Null
    ensures var p := FieldReaction(BlurReaction, field, fieldForm).value.fields;
      && "focus" in p && p["focus"] == Bool(false)
      && "touched" in p && p["touched"] == Bool(true)
      && "retouched" in p
      && p["retouched"] == Bool(Truthy(Get(fieldForm, "submitted")) || Truthy(Get(fieldForm, "submitFailed")))
  {
  }

  /**
   * BLUR and SET_TOUCHED unfocus and touch the addressed record, and mark it retouched
   * exactly when the `$form` beside it records a submission or a failed one.
   */
  lemma BlurRetouches(state: Value, a: Actions.Action, path: seq<string>)
    requires (a.Blur? || a.SetTouched?) && FormActionReducer(state, a, path).Ok?
    requires Spine(state, Target(path)) && NoMeta(Target(path))
    requires RecordOf(Lodash.GetIn(state, Target(path))).Obj?
    ensures var t := Target(path); var res := FormActionReducer(state, a, path).value;
      var ff := Lodash.GetIn(state, Butlast(path) + ["$form"]);
      var rec := RecordOf(Lodash.GetIn(res, t));
      && Get(rec, "focus") == Bool(false) && Get(rec, "touched") == Bool(true)
      && Get(rec, "retouched") == Bool(Truthy(Get(ff, "submitted")) || Truthy(Get(ff, "submitFailed")))
  {
    ReactionOf(a);
    var ff := Lodash.GetIn(state, Butlast(path) + ["$form"]);
    AddressedKey(state, a, path, "focus");
    AddressedKey(state, a, path, "touched");
    AddressedKey(state, a, path, "retouched");
    BlurPatch(RecordOf(Lodash.GetIn(state, Target(path))), ff);
  }

  /** The validity patch. */
  lemma ValidityPatch(validity: Value, field: Value, fieldForm: Value)
    ensures var p := FieldReaction(ValidityReaction(validity), field, fieldForm).value.fields;
      && "validity" in p && p["validity"] == validity
      && "validated" in p && p["validated"] == Bool(true)
      && "valid" in p && p["valid"] == Bool(ValidFromValidity(validity))
  {
  }

  /**
   * SET_VALIDITY merges the validity into the one the addressed record held (so keys of an
   * earlier object validity that the new one lacks stay), marks it validated, and makes it
   * valid exactly when the new validity is truthy (every entry of an object validity).
   */
  lemma SetValidityOnRecord(state: Value, a: Actions.Action, path: seq<string>)
    requires a.SetValidity? && FormActionReducer(state, a, path).Ok?
    requires Spine(state, Target(path)) && NoMeta(Target(path))
    requires RecordOf(Lodash.GetIn(state, Target(path))).Obj?
    ensures var before := Get(RecordOf(Lodash.GetIn(state, Target(path))), "validity");
      var rec := RecordOf(Lodash.GetIn(FormActionReducer(state, a, path).value, Target(path)));
      && Get(rec, "validity") == Icepick.MergeValue(before, a.validity)
      && (before.Obj? && a.validity.Obj? ==> forall k :: k !in a.validity.fields ==>
            Get(Get(rec, "validity"), k) == Get(before, k))
      && (!(before.Obj? && a.validity.Obj?) ==> Get(rec, "validity") == a.validity)
      && Get(rec, "validated") == Bool(true)
      && (Get(rec, "valid") == Bool(true) <==> if a.validity.Obj? then EveryTruthy(a.validity) else Truthy(a.validity))
      && (Get(rec, "valid") == Bool(true) || Get(rec, "valid") == Bool(false))
  {
    ReactionOf(a);
    AddressedKey(state, a, path, "validity");
    AddressedKey(state, a, path, "validated");
    AddressedKey(state, a, path, "valid");
    ValidityPatch(a.validity, RecordOf(Lodash.GetIn(state, Target(path))), Lodash.GetIn(state, Butlast(path) + ["$form"]));
  }

  /** The errors patch. */
  lemma ErrorsPatch(errors: Value, field: Value, fieldForm: Value)
    ensures var p := FieldReaction(ErrorsReaction(errors), field, fieldForm).value.fields;
      && "errors" in p && p["errors"] == errors
      && "validity" in p && p["validity"] == Invert(errors)
      && "validated" in p && p["validated"] == Bool(true)
      && "valid" in p && p["valid"] == Bool(Utils.IsValid(Invert(errors)))
  {
  }

  /**
   * SET_ERRORS merges the errors into the ones the addressed record held and their key-wise
   * negation into its validity, marks it validated, and makes it valid exactly when the new
   * errors hold no error.
   */
  lemma SetErrorsOnRecord(state: Value, a: Actions.Action, path: seq<string>)
    requires a.SetErrors? && FormActionReducer(state, a, path).Ok?
    requires Spine(state, Target(path)) && NoMeta(Target(path))
    requires RecordOf(Lodash.GetIn(state, Target(path))).Obj?
    ensures var before := RecordOf(Lodash.GetIn(state, Target(path)));
      var rec := RecordOf(Lodash.GetIn(FormActionReducer(state, a, path).value, Target(path)));
      && Get(rec, "errors") == Icepick.MergeValue(Get(before, "errors"), a.errors)
      && Get(rec, "validity") == Icepick.MergeValue(Get(before, "validity"), Invert(a.errors))
      && (Get(before, "errors").Obj? && a.errors.Obj? ==> forall k :: k !in a.errors.fields ==>
            Get(Get(rec, "errors"), k) == Get(Get(before, "errors"), k))
      && Get(rec, "validated") == Bool(true)
      && (Get(rec, "valid") == Bool(true) <==> if a.errors.Obj? then EveryFalsy(a.errors) else !Truthy(a.errors))
  {
    ReactionOf(a);
    AddressedKey(state, a, path, "errors");
    AddressedKey(state, a, path, "validity");
    AddressedKey(state, a, path, "validated");
    AddressedKey(state, a, path, "valid");
    ErrorsPatch(a.errors, RecordOf(Lodash.GetIn(state, Target(path))), Lodash.GetIn(state, Butlast(path) + ["$form"]));
    Utils.InvertedErrorsValid(a.errors);
  }

  /**
   * Because `formIsValid` reads the `$form` entry's own `valid`, a node above the addressed
   * record whose `$form` was invalid stays invalid under SET_VALIDITY and SET_ERRORS.
   */
  lemma InvalidFormStaysInvalid(state: Value, a: Actions.Action, path: seq<string>, i: nat)
    requires (a.SetValidity? || a.SetErrors?) && FormActionReducer(state, a, path).Ok?
    requires Spine(state, Target(path)) && NoMeta(Target(path)) && i < |Target(path)|
    requires var meta := Lodash.GetIn(state, Target(path)[..i] + ["$form"]);
      meta.Obj? && !Truthy(Get(meta, "valid"))
    ensures Get(Lodash.GetIn(FormActionReducer(state, a, path).value, Target(path)[..i] + ["$form"]), "valid") == Bool(false)
  {
    var t := Target(path);
    var res := FormActionReducer(state, a, path).value;
    var ff := Lodash.GetIn(state, Butlast(path) + ["$form"]);
    ReactionOf(a);
    var r := GetReaction(a).value;
    var n := Lodash.GetIn(state, t[..i]);
    StepGrafts(r);
    LeafGrows(r, ff);
    WalkAncestor(state, path, Leaf(r, ff), Step(r), i);
    SpineAt(state, t, i);
    Lodash.GetInAppend(state, t[..i], ["$form"]);
    Lodash.GetInAppend(res, t[..i], ["$form"]);
    ClimbInvalid(n, t[i], Lodash.GetIn(res, t[..i + 1]), r);
  }

  /** Climbing into a node whose `$form` is invalid leaves it invalid under validity and errors. */
  lemma ClimbInvalid(n: Value, k: string, child: Value, r: Reaction)
    requires r.ValidityReaction? || r.ErrorsReaction?
    requires Climb(n, k, child, r).Ok? && n.Obj? && k != "$form"
    requires Get(n, "$form").Obj? && !Truthy(Get(Get(n, "$form"), "valid"))
    ensures Get(Get(Climb(n, k, child, r).value, "$form"), "valid") == Bool(false)
  {
    var meta := Get(n, "$form");
    var updated := Icepick.Merge(n, Obj(map[k := child]));
    ClimbEffect(n, k, child, r);
    StillInvalid(n, updated, k, child);
    FormReactionEffect(r, meta, updated);
    var patch := FormReaction(r, meta, updated).value;
    assert patch == Obj(map["valid" := Bool(false)]);
    PatchedKey(meta, patch, "valid");
  }

  /** A node whose `$form` is invalid is still judged invalid once a child is replaced. */
  lemma StillInvalid(n: Value, updated: Value, k: string, child: Value)
    requires k != "$form" && updated == Icepick.Merge(n, Obj(map[k := child]))
    requires Get(n, "$form").Obj? && !Truthy(Get(Get(n, "$form"), "valid"))
    ensures FormIsValid(updated) != Ok(true)
  {
    assert n.Obj?;
    assert Get(updated, "$form") == Get(n, "$form");
    FormIsValidMeaning(updated);
    assert HasKey(updated, "$form");
  }
}
