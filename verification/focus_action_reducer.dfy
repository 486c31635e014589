/** The flat-field generation's FOCUS handler: one `updateField` that sets `focus`. */
module FocusActionReducer {
  import opened Wrappers
  import opened Values
  import Actions
  import Lodash
  import Icepick
  import UpdateField

  const FocusPatch: Value := Obj(map["focus" := Bool(true)])

  /** `setFocusActionReducer(state, action, localPath)` */
  function SetFocusActionReducer(state: Value, a: Actions.Action, localPath: seq<string>,
                                 createInitialState: (Value, Value) -> Value): (r: Result<Value>)
    ensures Actions.TypeOf(a) != Some(Actions.FOCUS) ==> r == Ok(state)
    ensures Actions.TypeOf(a) == Some(Actions.FOCUS) ==>
      r == UpdateField.UpdateField(state, localPath, UpdateField.Patch(FocusPatch), None, None, createInitialState)
  {
    if Actions.TypeOf(a) != Some(Actions.FOCUS) then Ok(state)
    else UpdateField.UpdateField(state, localPath, UpdateField.Patch(FocusPatch), None, None, createInitialState)
  }

  /**
   * FOCUS on an existing record: the record (the `$form` of a sub-form) gets `focus = true`,
   * keeps every other attribute, and every path branching off it is unchanged, so the
   * children of a sub-form are untouched.
   */
  lemma FocusRecord(state: Value, a: Actions.Action, localPath: seq<string>,
                    createInitialState: (Value, Value) -> Value, q: seq<string>, i: nat)
    requires Actions.TypeOf(a) == Some(Actions.FOCUS)
    requires Truthy(state) && Truthy(Lodash.GetIn(state, localPath))
    requires var rp := UpdateField.RecordPath(Lodash.GetIn(state, localPath), localPath);
      |rp| > 0 && Icepick.AssocWritable(state, rp) && Lodash.GetIn(state, rp).Obj?
    requires var rp := UpdateField.RecordPath(Lodash.GetIn(state, localPath), localPath);
      i < |rp| && i < |q| && rp[..i] == q[..i] && rp[i] != q[i]
    ensures var rp := UpdateField.RecordPath(Lodash.GetIn(state, localPath), localPath);
      var res := SetFocusActionReducer(state, a, localPath, createInitialState);
      var before := Lodash.GetIn(state, rp);
      && res.Ok?
      && Get(Lodash.GetIn(res.value, rp), "focus") == Bool(true)
      && (forall k :: k != "focus" ==> Get(Lodash.GetIn(res.value, rp), k) == Get(before, k))
      && Lodash.GetIn(res.value, q) == Lodash.GetIn(state, q)
  {
    var rp := UpdateField.RecordPath(Lodash.GetIn(state, localPath), localPath);
    var rec := Lodash.GetIn(state, rp);
    UpdateField.UpdateExistingRecord(state, localPath, UpdateField.Patch(FocusPatch), None, createInitialState, q, i);
    var res := SetFocusActionReducer(state, a, localPath, createInitialState);
    assert Lodash.GetIn(res.value, rp) == Icepick.Assign(rec, FocusPatch);
    FocusAssigned(rec);
  }

  /**
   * FOCUS on a field created lazily below an existing sub-form: in a form holding the
   * sub-form `foo`, where the constructed state holds `foo.bar` as a plain field record, the
   * created record is found and focused, and `foo`'s own record and the form's stay in place.
   */
  lemma FocusLazyNestedField(state: Value, meta: Value, bar: Value, createInitialState: (Value, Value) -> Value)
    requires state == Obj(map["$form" := meta, "foo" := Obj(map["$form" := Obj(map[])])])
    requires meta.Obj? && forall k :: k in meta.fields ==> meta.fields[k] != Undef
    requires bar.Obj? && "$form" !in bar.fields
    requires forall m, v :: createInitialState(m, v) == Obj(map["$form" := Obj(map[]), "foo" := Obj(map["$form" := Obj(map[]), "bar" := bar])])
    ensures var res := SetFocusActionReducer(state, Actions.Focus("foo.bar"), ["foo", "bar"], createInitialState);
      && res.Ok?
      && Lodash.GetIn(res.value, ["foo", "bar", "focus"]) == Bool(true)
      && (forall k :: k != "focus" ==> Lodash.GetIn(res.value, ["foo", "bar", k]) == Get(bar, k))
      && Lodash.GetIn(res.value, ["foo", "$form"]) == Obj(map[])
      && Lodash.GetIn(res.value, ["$form"]) == meta
  {
    var form := Obj(map["$form" := meta, "foo" := Obj(map["$form" := Obj(map[]), "bar" := bar])]);
    LazyFormFound(state, meta, bar, createInitialState);
    assert SetFocusActionReducer(state, Actions.Focus("foo.bar"), ["foo", "bar"], createInitialState) ==
      Ok(Icepick.AssocIn(form, ["foo", "bar"], Icepick.Assign(bar, FocusPatch)));
    FocusInForm(form, meta, bar);
  }

  /** Focusing `foo.bar` in the form of the example above. */
  lemma FocusInForm(form: Value, meta: Value, bar: Value)
    requires form == Obj(map["$form" := meta, "foo" := Obj(map["$form" := Obj(map[]), "bar" := bar])])
    requires bar.Obj?
    ensures var res := Icepick.AssocIn(form, ["foo", "bar"], Icepick.Assign(bar, FocusPatch));
      && Lodash.GetIn(res, ["foo", "bar", "focus"]) == Bool(true)
      && (forall k :: k != "focus" ==> Lodash.GetIn(res, ["foo", "bar", k]) == Get(bar, k))
      && Lodash.GetIn(res, ["foo", "$form"]) == Obj(map[])
      && Lodash.GetIn(res, ["$form"]) == meta
  {
    var path := ["foo", "bar"];
    var focused := Icepick.Assign(bar, FocusPatch);
    var res := Icepick.AssocIn(form, path, focused);
    assert Icepick.AssocWritable(form, path) by {
      assert Icepick.AssocWritable(Icepick.OrEmpty(Get(form, "foo")), ["bar"]);
    }
    Icepick.AssocInGet(form, path, focused);
    FocusAssigned(bar);
    forall k ensures Lodash.GetIn(res, path + [k]) == Get(focused, k) {
      Lodash.GetInAppend(res, path, [k]);
    }
    assert path + ["focus"] == ["foo", "bar", "focus"];
    assert forall k :: path + [k] == ["foo", "bar", k];
    Icepick.AssocInOther(form, path, ["foo", "$form"], 1, focused);
    Icepick.AssocInOther(form, path, ["$form"], 0, focused);
    GetInPair(form, "foo", "$form");
    assert Lodash.GetIn(form, ["$form"]) == Lodash.GetIn(meta, []) == meta;
  }

  /** The lazily created `foo.bar` of the example above and the form it is found in. */
  lemma LazyFormFound(state: Value, meta: Value, bar: Value, createInitialState: (Value, Value) -> Value)
    requires state == Obj(map["$form" := meta, "foo" := Obj(map["$form" := Obj(map[])])])
    requires meta.Obj? && forall k :: k in meta.fields ==> meta.fields[k] != Undef
    requires bar.Obj? && "$form" !in bar.fields
    requires forall m, v :: createInitialState(m, v) == Obj(map["$form" := Obj(map[]), "foo" := Obj(map["$form" := Obj(map[]), "bar" := bar])])
    ensures UpdateField.GetFieldAndForm(state, ["foo", "bar"], createInitialState) ==
      Ok((bar, Obj(map["$form" := meta, "foo" := Obj(map["$form" := Obj(map[]), "bar" := bar])])))
  {
    var foo := Obj(map["$form" := Obj(map[]), "bar" := bar]);
    GetInPair(state, "foo", "bar");
    UpdateField.LazyForm(state, ["foo", "bar"], createInitialState);
    LazyCreatedMerge(state, meta, bar, createInitialState);
    GetInPair(Obj(map["$form" := meta, "foo" := foo]), "foo", "bar");
  }

  /** The form of the example above: the existing form merged over the constructed state. */
  lemma LazyCreatedMerge(state: Value, meta: Value, bar: Value, createInitialState: (Value, Value) -> Value)
    requires state == Obj(map["$form" := meta, "foo" := Obj(map["$form" := Obj(map[])])])
    requires meta.Obj? && forall k :: k in meta.fields ==> meta.fields[k] != Undef
    requires forall m, v :: createInitialState(m, v) == Obj(map["$form" := Obj(map[]), "foo" := Obj(map["$form" := Obj(map[]), "bar" := bar])])
    ensures Icepick.Merge(UpdateField.CreatedState(state, ["foo", "bar"], createInitialState), state) ==
      Obj(map["$form" := meta, "foo" := Obj(map["$form" := Obj(map[]), "bar" := bar])])
  {
    var foo := Obj(map["$form" := Obj(map[]), "bar" := bar]);
    Icepick.MergeOntoEmpty(meta);
    LazyMergeSubForm(foo);
    LazyMerge(UpdateField.CreatedState(state, ["foo", "bar"], createInitialState), state, meta, foo);
  }

  /**
   * The merge step of the example: the existing form laid over the constructed one keeps the
   * form's `$form` and the constructed sub-form `foo` with its new field.
   */
  lemma LazyMerge(created: Value, state: Value, meta: Value, foo: Value)
    requires created.Obj? && state.Obj?
    requires created.fields.Keys == {"$form", "foo"} && state.fields.Keys == {"$form", "foo"}
    requires Icepick.MergeValue(created.fields["$form"], state.fields["$form"]) == meta
    requires Icepick.MergeValue(created.fields["foo"], state.fields["foo"]) == foo
    ensures Icepick.Merge(created, state) == Obj(map["$form" := meta, "foo" := foo])
  {
    Icepick.MergeWithin(created, state, Obj(map["$form" := meta, "foo" := foo]));
  }

  /** A sub-form with an empty `$form` absorbs an existing sub-form holding only that. */
  lemma LazyMergeSubForm(foo: Value)
    requires foo.Obj? && "$form" in foo.fields && foo.fields["$form"] == Obj(map[])
    ensures Icepick.Merge(foo, Obj(map["$form" := Obj(map[])])) == foo
  {
    Icepick.MergeSelf(Obj(map[]));
    Icepick.MergeWithin(foo, Obj(map["$form" := Obj(map[])]), foo);
  }

  lemma GetInPair(v: Value, a: string, b: string)
    ensures Lodash.GetIn(v, [a, b]) == Get(Get(v, a), b)
  {
    assert [a, b][1..] == [b] && [b][1..] == [];
    assert Lodash.GetIn(v, [a, b]) == Lodash.GetIn(Get(v, a), [b]);
    assert Lodash.GetIn(Get(v, a), [b]) == Lodash.GetIn(Get(Get(v, a), b), []);
  }

  /** Assigning the focus patch over a record sets `focus` and nothing else. */
  lemma FocusAssigned(rec: Value)
    requires rec.Obj?
    ensures Get(Icepick.Assign(rec, FocusPatch), "focus") == Bool(true)
    ensures forall k :: k != "focus" ==> Get(Icepick.Assign(rec, FocusPatch), k) == Get(rec, k)
  {
  }
}
