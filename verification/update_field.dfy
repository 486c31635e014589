/**
 * Path updates of the flat-field generation's metadata tree. The form-state constructor
 * `getFieldAndForm` falls back on is imported from a module that does not define it, so it
 * is a parameter `createInitialState` here.
 */
module UpdateField {
  import opened Wrappers
  import opened Values
  import Lodash
  import Icepick

  /**
   * `assocIn(state, path, value, fn)`: an empty path assigns `value`'s keys into `state`;
   * without `fn` it is icepick's `assocIn`; with `fn`, every level from the leaf up to the
   * root is passed through `fn` after its child is written, a falsy child reading as `{}`.
   */
  function AssocIn(state: Value, path: seq<string>, value: Value, fn: Option<Value -> Value>): (r: Value)
    ensures |path| == 0 ==> r == Icepick.Assign(state, value)
    ensures |path| > 0 && fn.None? ==> r == Icepick.AssocIn(state, path, value)
    ensures |path| > 0 && fn.Some? ==> exists x :: r == fn.value(x)
    decreases |path|
  {
    if |path| == 0 then Icepick.Assign(state, value)
    else if fn.None? then Icepick.AssocIn(state, path, value)
    else if |path| == 1 then fn.value(Icepick.Assoc(state, path[0], value))
    else fn.value(Icepick.Assoc(state, path[0], AssocIn(Icepick.OrEmpty(Get(state, path[0])), path[1..], value, fn)))
  }

  /** With the identity as `fn`, the updater form is plain `assocIn`. */
  lemma {:induction false} AssocInIdentity(state: Value, path: seq<string>, value: Value)
    requires |path| > 0
    ensures AssocIn(state, path, value, Some(x => x)) == Icepick.AssocIn(state, path, value)
    decreases |path|
  {
    if |path| > 1 {
      AssocInIdentity(Icepick.OrEmpty(Get(state, path[0])), path[1..], value);
    }
  }

  /** Without `fn`, a read at the path returns `value` and every path branching off is unchanged. */
  lemma AssocInPlain(state: Value, path: seq<string>, value: Value, q: seq<string>, i: nat)
    requires |path| > 0 && Icepick.AssocWritable(state, path)
    requires i < |path| && i < |q| && path[..i] == q[..i] && path[i] != q[i]
    ensures Lodash.GetIn(AssocIn(state, path, value, None), path) == value
    ensures Lodash.GetIn(AssocIn(state, path, value, None), q) == Lodash.GetIn(state, q)
  {
    Icepick.AssocInGet(state, path, value);
    Icepick.AssocInOther(state, path, q, i, value);
  }

  /**
   * `tempInitialState(path, initialValue = null)`: the chain of single-key objects that holds
   * the value at `path`. An empty path never ends the source's recursion, so it is excluded.
   */
  function TempInitialState(path: seq<string>, initialValue: Value): (r: Value)
    requires |path| > 0
    ensures r.Obj? && r.fields.Keys == {path[0]}
    decreases |path|
  {
    var v := if initialValue == Undef then Null else initialValue;
    if |path| == 1 then Obj(map[path[0] := v])
    else Obj(map[path[0] := TempInitialState(path[1..], initialValue)])
  }

  /** The temporary state holds the value (`null` for `undefined`) at `path`, one key per level. */
  lemma {:induction false} TempInitialStateHolds(path: seq<string>, initialValue: Value, i: nat)
    requires |path| > 0 && i < |path|
    ensures Lodash.GetIn(TempInitialState(path, initialValue), path) == if initialValue == Undef then Null else initialValue
    ensures var node := Lodash.GetIn(TempInitialState(path, initialValue), path[..i]);
      node.Obj? && node.fields.Keys == {path[i]}
    decreases |path|
  {
    if |path| > 1 {
      if i > 0 {
        TempInitialStateHolds(path[1..], initialValue, i - 1);
        assert path[..i][1..] == path[1..][..i - 1];
      } else {
        TempInitialStateHolds(path[1..], initialValue, 0);
      }
    }
  }

  /**
   * `getFieldAndForm(formState, path)`: the record at `path` and the form holding it. A missing
   * record is created lazily by merging the existing form over the state built for a chain
   * holding the initial value at `path`.
   */
  function GetFieldAndForm(formState: Value, path: seq<string>,
                           createInitialState: (Value, Value) -> Value): (r: Result<(Value, Value)>)
    ensures !Truthy(formState) ==> r == Err(FormNotFound)
    ensures Truthy(formState) && Truthy(Lodash.GetIn(formState, path)) ==>
      r == Ok((Lodash.GetIn(formState, path), formState))
    ensures r.Ok? ==> r.value.0 == Lodash.GetIn(r.value.1, path)
  {
    var field := Lodash.GetIn(formState, path);
    if !Truthy(formState) then Err(FormNotFound)
    else if Truthy(field) then Ok((field, formState))
    else
      var meta := Get(formState, "$form");
      if meta == Undef || meta == Null then Err(NullAccess)
      else
        var initialValue := Lodash.GetIn(Get(meta, "initialValue"), path);
        assert |path| > 0;
        var form := Icepick.Merge(createInitialState(Get(meta, "model"), TempInitialState(path, initialValue)), formState);
        Ok((Lodash.GetIn(form, path), form))
  }

  /** The form state `createInitialState` builds for a record missing at `path`. */
  function CreatedState(formState: Value, path: seq<string>, createInitialState: (Value, Value) -> Value): Value
    requires |path| > 0
  {
    var meta := Get(formState, "$form");
    createInitialState(Get(meta, "model"), TempInitialState(path, Lodash.GetIn(Get(meta, "initialValue"), path)))
  }

  /** A missing record is looked up in the existing form merged over the created state. */
  lemma LazyForm(formState: Value, path: seq<string>, createInitialState: (Value, Value) -> Value)
    requires Truthy(formState) && !Truthy(Lodash.GetIn(formState, path)) && |path| > 0
    requires Get(formState, "$form") != Undef && Get(formState, "$form") != Null
    ensures var form := Icepick.Merge(CreatedState(formState, path, createInitialState), formState);
      GetFieldAndForm(formState, path, createInitialState) == Ok((Lodash.GetIn(form, path), form))
  {
  }

  /**
   * A missing record below an existing form is found in the created state whenever the
   * existing form holds no object along `path` to merge over it: a nested field created
   * lazily below an existing sub-form is not lost.
   */
  lemma LazyFieldFound(formState: Value, path: seq<string>, createInitialState: (Value, Value) -> Value)
    requires Truthy(formState) && !Truthy(Lodash.GetIn(formState, path)) && |path| > 0
    requires Get(formState, "$form") != Undef && Get(formState, "$form") != Null
    requires Icepick.OnlyInTarget(CreatedState(formState, path, createInitialState), formState, path)
    ensures var r := GetFieldAndForm(formState, path, createInitialState);
      r.Ok? && r.value.0 == Lodash.GetIn(CreatedState(formState, path, createInitialState), path)
  {
    Icepick.MergeKeepsTarget(CreatedState(formState, path, createInitialState), formState, path);
  }

  /**
   * Lazy creation keeps the existing form: every defined non-object value it holds is still
   * there in the form returned with the created record.
   */
  lemma LazyFormKeepsState(formState: Value, path: seq<string>, createInitialState: (Value, Value) -> Value,
                           q: seq<string>)
    requires Truthy(formState) && !Truthy(Lodash.GetIn(formState, path)) && |path| > 0
    requires Get(formState, "$form") != Undef && Get(formState, "$form") != Null
    requires CreatedState(formState, path, createInitialState).Obj?
    requires |q| > 0 && Lodash.HasPath(formState, q)
    requires !Lodash.GetIn(formState, q).Obj? && Lodash.GetIn(formState, q) != Undef
    ensures var r := GetFieldAndForm(formState, path, createInitialState);
      r.Ok? && Lodash.GetIn(r.value.1, q) == Lodash.GetIn(formState, q)
  {
    Icepick.MergeKeepsSource(CreatedState(formState, path, createInitialState), formState, q);
  }

  /** `newState`: a patch, or a function of the current record returning one. */
  datatype NewState = Patch(patch: Value) | Updater(f: Value -> Value)

  /** `newSubState`: a patch for every child, or a function of the child and the updated record. */
  datatype NewSubState = SubPatch(patch: Value) | SubUpdater(g: (Value, Value) -> Value)

  function Updated(newState: NewState, fieldState: Value): (r: Value)
    ensures newState.Patch? ==> r == newState.patch
    ensures newState.Updater? ==> r == newState.f(fieldState)
  {
    match newState
    case Patch(p) => p
    case Updater(f) => f(fieldState)
  }

  /** `if (newSubState)`: a function is always truthy, a patch when the value is. */
  predicate HasSubState(newSubState: Option<NewSubState>)
  {
    newSubState.Some? && (newSubState.value.SubUpdater? || Truthy(newSubState.value.patch))
  }

  /**
   * The rebuilt sub-form: its `$form` gets the updated record, every child is assigned its
   * own update.
   */
  function SubFormState(field: Value, fieldState: Value, updated: Value, newSubState: NewSubState): (r: Value)
    ensures r.Obj? && r.fields.Keys == Entries(field).Keys
    ensures "$form" in Entries(field) ==> r.fields["$form"] == Icepick.Assign(fieldState, updated)
    ensures forall k :: k in Entries(field) && k != "$form" ==>
      r.fields[k] == Icepick.Assign(Entries(field)[k],
        match newSubState
        case SubPatch(p) => p
        case SubUpdater(g) => g(Entries(field)[k], updated))
  {
    var es := Entries(field);
    Obj(map k | k in es ::
      if k == "$form" then Icepick.Assign(fieldState, updated)
      else Icepick.Assign(es[k], match newSubState
                                 case SubPatch(p) => p
                                 case SubUpdater(g) => g(es[k], updated)))
  }

  /**
   * `updateField(state, path, newState, newSubState, updater)`: assign the update into the
   * record at `path` (the `$form` of a sub-form). A sub-form with `newSubState` is rebuilt as
   * a whole and returned directly at the empty path. A record that still does not exist
   * after lazy creation leaves the state unchanged.
   */
  function UpdateField(state: Value, path: seq<string>, newState: NewState, newSubState: Option<NewSubState>,
                       updater: Option<Value -> Value>, createInitialState: (Value, Value) -> Value): (r: Result<Value>)
    ensures GetFieldAndForm(state, path, createInitialState).Err? ==> r == Err(GetFieldAndForm(state, path, createInitialState).error)
    ensures GetFieldAndForm(state, path, createInitialState).Ok? && !Truthy(GetFieldAndForm(state, path, createInitialState).value.0) ==>
      r == Ok(state)
    ensures var ff := GetFieldAndForm(state, path, createInitialState);
      ff.Ok? && Truthy(ff.value.0) && !HasKey(ff.value.0, "$form") ==>
        r == Ok(AssocIn(ff.value.1, path, Icepick.Assign(ff.value.0, Updated(newState, ff.value.0)), updater))
    ensures var ff := GetFieldAndForm(state, path, createInitialState);
      ff.Ok? && HasKey(ff.value.0, "$form") && !HasSubState(newSubState) ==>
        var meta := Get(ff.value.0, "$form");
        r == Ok(AssocIn(ff.value.1, path + ["$form"], Icepick.Assign(meta, Updated(newState, meta)), updater))
    ensures var ff := GetFieldAndForm(state, path, createInitialState);
      ff.Ok? && HasKey(ff.value.0, "$form") && HasSubState(newSubState) && |path| == 0 ==>
        var meta := Get(ff.value.0, "$form");
        r == Ok(SubFormState(ff.value.0, meta, Updated(newState, meta), newSubState.value))
  {
    match GetFieldAndForm(state, path, createInitialState)
    case Err(e) => Err(e)
    case Ok((field, fullState)) =>
      if !Truthy(field) then Ok(state)
      else
        var isForm := HasKey(field, "$form");
        var fieldPath := if isForm then path + ["$form"] else path;
        var fieldState := if isForm then Get(field, "$form") else field;
        var updated := Updated(newState, fieldState);
        if isForm && HasSubState(newSubState) then
          var formState := SubFormState(field, fieldState, updated, newSubState.value);
          if |path| == 0 then Ok(formState)
          else Ok(AssocIn(fullState, path, formState, updater))
        else
          Ok(AssocIn(fullState, fieldPath, Icepick.Assign(fieldState, updated), updater))
  }

  /** Where `updateField` writes: the record itself, or the `$form` of a sub-form. */
  function RecordPath(field: Value, path: seq<string>): (p: seq<string>)
    ensures HasKey(field, "$form") ==> p == path + ["$form"]
    ensures !HasKey(field, "$form") ==> p == path
  {
    if HasKey(field, "$form") then path + ["$form"] else path
  }

  /**
   * Without a sub-form rebuild or an updater, `updateField` on an existing record writes the
   * record with the update assigned over it, and leaves every path branching off untouched.
   */
  lemma UpdateExistingRecord(state: Value, path: seq<string>, newState: NewState, newSubState: Option<NewSubState>,
                             createInitialState: (Value, Value) -> Value, q: seq<string>, i: nat)
    requires Truthy(state) && Truthy(Lodash.GetIn(state, path))
    requires !(HasKey(Lodash.GetIn(state, path), "$form") && HasSubState(newSubState))
    requires var rp := RecordPath(Lodash.GetIn(state, path), path);
      |rp| > 0 && Icepick.AssocWritable(state, rp)
    requires var rp := RecordPath(Lodash.GetIn(state, path), path);
      i < |rp| && i < |q| && rp[..i] == q[..i] && rp[i] != q[i]
    ensures var field := Lodash.GetIn(state, path);
      var rp := RecordPath(field, path);
      var rec := Lodash.GetIn(state, rp);
      var res := UpdateField(state, path, newState, newSubState, None, createInitialState);
      && res.Ok?
      && Lodash.GetIn(res.value, rp) == Icepick.Assign(rec, Updated(newState, rec))
      && Lodash.GetIn(res.value, q) == Lodash.GetIn(state, q)
  {
    var field := Lodash.GetIn(state, path);
    var rp := RecordPath(field, path);
    var rec := if HasKey(field, "$form") then Get(field, "$form") else field;
    if HasKey(field, "$form") {
      Lodash.GetInAppend(state, path, ["$form"]);
    }
    assert Lodash.GetIn(state, rp) == rec;
    AssocInPlain(state, rp, Icepick.Assign(rec, Updated(newState, rec)), q, i);
  }

  /**
   * With `newSubState`, an existing sub-form below the root is replaced by its rebuilt form:
   * `$form` assigned the update, each child assigned its own.
   */
  lemma SubFormRebuilt(state: Value, path: seq<string>, newState: NewState, newSubState: NewSubState,
                       createInitialState: (Value, Value) -> Value)
    requires Truthy(state) && Truthy(Lodash.GetIn(state, path)) && HasKey(Lodash.GetIn(state, path), "$form")
    requires HasSubState(Some(newSubState)) && |path| > 0 && Icepick.AssocWritable(state, path)
    ensures var field := Lodash.GetIn(state, path);
      var meta := Get(field, "$form");
      var res := UpdateField(state, path, newState, Some(newSubState), None, createInitialState);
      res.Ok? && Lodash.GetIn(res.value, path) == SubFormState(field, meta, Updated(newState, meta), newSubState)
  {
    var field := Lodash.GetIn(state, path);
    var meta := Get(field, "$form");
    var formState := SubFormState(field, meta, Updated(newState, meta), newSubState);
    assert GetFieldAndForm(state, path, createInitialState) == Ok((field, state));
    assert UpdateField(state, path, newState, Some(newSubState), None, createInitialState)
      == Ok(AssocIn(state, path, formState, None));
    Icepick.AssocInGet(state, path, formState);
  }
}
