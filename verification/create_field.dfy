/**
 * Building the metadata tree of the flat-field generation: a field record for a scalar, and
 * for an object or array a form state whose `$form` describes the node and whose other keys
 * describe its entries. The initial field state these builders start from is defined outside
 * this file, so it is a parameter `init` here.
 */
module CreateField {
  import opened Wrappers
  import opened Values
  import opened Paths
  import Lodash

  /** `createFieldState(model, value, custom)`: the initial state, the custom state, then the field's own keys. */
  function CreateFieldState(init: Attrs, model: string, value: Value, custom: Value): (r: Value)
    ensures r.Obj? && r.fields.Keys == init.Keys + ObjMap(custom).Keys + {"model", "value", "initialValue"}
    ensures Get(r, "model") == Str(model) && Get(r, "value") == value && Get(r, "initialValue") == value
    ensures forall k :: k in ObjMap(custom) && k !in {"model", "value", "initialValue"} ==> r.fields[k] == ObjMap(custom)[k]
    ensures forall k :: k in init && k !in ObjMap(custom) && k !in {"model", "value", "initialValue"} ==> r.fields[k] == init[k]
  {
    Obj(init + ObjMap(custom) + map["model" := Str(model), "value" := value, "initialValue" := value])
  }

  /** `getSubModelString(model, key)`: a child's model string. */
  function SubModel(model: string, key: string): (r: string)
    ensures model == "" ==> r == key
    ensures model != "" ==> |r| == |model| + 1 + |key| && r[..|model|] == model && r[|model|] == '.' && r[|model| + 1..] == key
  {
    if model == "" then key else model + "." + key
  }

  /** The model string of the node `path` below `model`: one `SubModel` step per key. */
  function NestedModel(model: string, path: seq<string>): string
    decreases |path|
  {
    if |path| == 0 then model else NestedModel(SubModel(model, path[0]), path[1..])
  }

  /** `getMeta(fieldLike, prop)`: read from `$form` when there is a (truthy) one, else from the record; a missing record throws. */
  function GetMeta(fieldLike: Value, prop: string): (r: Result<Value>)
    ensures Truthy(fieldLike) && Truthy(Get(fieldLike, "$form")) ==> r == Ok(Get(Get(fieldLike, "$form"), prop))
    ensures !Truthy(Get(fieldLike, "$form")) ==> (r.Ok? <==> fieldLike != Undef && fieldLike != Null)
    ensures !Truthy(Get(fieldLike, "$form")) && r.Ok? ==> r.value == Get(fieldLike, prop)
  {
    if Truthy(fieldLike) && Truthy(Get(fieldLike, "$form")) then Ok(Get(Get(fieldLike, "$form"), prop))
    else if fieldLike == Undef || fieldLike == Null then Err(NullAccess)
    else Ok(Get(fieldLike, prop))
  }

  /**
   * `getMeta` reads a created field and a created form alike: both answer the model string and
   * the value they were built from. Neither the initial nor the custom state may carry a
   * `$form` key of its own, and no entry of the value may be named `$form`.
   */
  lemma MetaOfCreated(init: Attrs, model: string, v: Value, custom: Value)
    requires "$form" !in init && "$form" !in ObjMap(custom) && "$form" !in Entries(v)
    ensures var s := FieldOrForm(init, model, v, custom);
      && GetMeta(s, "model") == Ok(Str(model))
      && GetMeta(s, "value") == Ok(v)
      && GetMeta(s, "initialValue") == Ok(v)
  {
    if IsContainer(v) {
      FormStateShape(init, model, v, custom, false);
    }
  }

  /** `fieldOrForm(model, value, custom)`: a form state for an object or array, a field state otherwise. */
  function FieldOrForm(init: Attrs, model: string, value: Value, custom: Value): Value
    decreases value, 2
  {
    if IsContainer(value) then CreateFormState(init, model, value, custom, false)
    else CreateFieldState(init, model, value, custom)
  }

  /**
   * `createFormState(model, values, custom, {lazy})`: `$form` describes the node; unless lazy,
   * each entry (an array's by its index) gets its own field or form state under its key.
   */
  function CreateFormState(init: Attrs, model: string, values: Value, custom: Value, lazy: bool): Value
    decreases values, 1
  {
    var state := map["$form" := CreateFieldState(init, model, values, custom)];
    if lazy then Obj(state) else Obj(state + SubStates(init, model, values, custom))
  }

  /** The field or form state of every entry, under the entry's key. */
  function SubStates(init: Attrs, model: string, values: Value, custom: Value): map<string, Value>
    decreases values, 0
  {
    var es := Entries(values);
    EntriesSmaller(values);
    map k | k in es :: FieldOrForm(init, SubModel(model, k), es[k], custom)
  }

  /**
   * The built form state always has `$form`, which describes the node itself unless an entry
   * of the same name overrides it; unless lazy it has exactly one more key per entry, holding
   * that entry's field or form state under the extended model string.
   */
  lemma FormStateShape(init: Attrs, model: string, values: Value, custom: Value, lazy: bool)
    ensures var r := CreateFormState(init, model, values, custom, lazy);
      && r.Obj? && "$form" in r.fields
      && (lazy ==> r.fields.Keys == {"$form"})
      && (!lazy ==> r.fields.Keys == Entries(values).Keys + {"$form"})
      && (lazy || "$form" !in Entries(values) ==> r.fields["$form"] == CreateFieldState(init, model, values, custom))
      && (!lazy ==> forall k :: k in Entries(values) ==>
            r.fields[k] == FieldOrForm(init, SubModel(model, k), Entries(values)[k], custom))
  {
    if !lazy {
      FormStateKeys(init, model, values, custom);
      forall k | k in Entries(values)
        ensures CreateFormState(init, model, values, custom, lazy).fields[k]
          == FieldOrForm(init, SubModel(model, k), Entries(values)[k], custom)
      {
        FormStateEntry(init, model, values, custom, k);
      }
    }
  }

  lemma FormStateKeys(init: Attrs, model: string, values: Value, custom: Value)
    ensures CreateFormState(init, model, values, custom, false).fields.Keys == Entries(values).Keys + {"$form"}
  {
  }

  lemma FormStateEntry(init: Attrs, model: string, values: Value, custom: Value, k: string)
    requires k in Entries(values)
    ensures var r := CreateFormState(init, model, values, custom, false);
      k in r.fields && r.fields[k] == FieldOrForm(init, SubModel(model, k), Entries(values)[k], custom)
  {
  }

  /** Descending one more key appends one more `SubModel` step. */
  lemma {:induction false} NestedModelSnoc(model: string, path: seq<string>, k: string)
    ensures NestedModel(model, path + [k]) == SubModel(NestedModel(model, path), k)
    decreases |path|
  {
    if |path| > 0 {
      assert (path + [k])[1..] == path[1..] + [k];
      NestedModelSnoc(SubModel(model, path[0]), path[1..], k);
    }
  }

  /** Below the root model `""`, nested model strings are the dotted joins of their keys. */
  lemma {:induction false} NestedModelJoins(path: seq<string>)
    requires |path| > 0 && path[0] != ""
    ensures NestedModel("", path) == JoinPath(path)
    decreases |path|
  {
    var q := path[..|path| - 1];
    var k := path[|path| - 1];
    assert path == q + [k];
    NestedModelSnoc("", q, k);
    if |q| > 0 {
      NestedModelJoins(q);
      JoinStartsWithFirst(q);
    }
  }

  /** The model strings built for nested fields parse back to the keys that lead to them. */
  lemma NestedModelParses(path: seq<string>)
    requires |path| > 0 && path[0] != ""
    requires forall i :: 0 <= i < |path| ==> SimpleKey(path[i])
    ensures ToPath(NestedModel("", path)) == path
  {
    NestedModelJoins(path);
    ToPathJoin(path);
  }

  /**
   * Shape mirroring: at every present path the built tree holds the field or form state of
   * the value found there, under the nested model string.
   */
  lemma {:induction false} CreatedTreeMirrors(init: Attrs, model: string, v: Value, custom: Value, path: seq<string>)
    requires Lodash.HasPath(v, path)
    ensures Lodash.GetIn(FieldOrForm(init, model, v, custom), path)
      == FieldOrForm(init, NestedModel(model, path), Lodash.GetIn(v, path), custom)
    decreases |path|
  {
    if |path| > 0 {
      var k := path[0];
      HasKeyEntries(v, k);
      FormStateShape(init, model, v, custom, false);
      assert Get(FieldOrForm(init, model, v, custom), k) == FieldOrForm(init, SubModel(model, k), Get(v, k), custom);
      CreatedTreeMirrors(init, SubModel(model, k), Get(v, k), custom, path[1..]);
    }
  }

  /** Every leaf of the built tree is a field record naming its model string and holding its value. */
  lemma CreatedLeaf(init: Attrs, model: string, v: Value, custom: Value, path: seq<string>)
    requires Lodash.HasPath(v, path) && !IsContainer(Lodash.GetIn(v, path))
    ensures var field := Lodash.GetIn(FieldOrForm(init, model, v, custom), path);
      && Get(field, "model") == Str(NestedModel(model, path))
      && Get(field, "value") == Lodash.GetIn(v, path)
      && Get(field, "initialValue") == Lodash.GetIn(v, path)
  {
    CreatedTreeMirrors(init, model, v, custom, path);
  }

  /** Unless the initial or custom state itself uses `$form`, a built state is a form exactly for containers. */
  lemma FormExactlyForContainers(init: Attrs, model: string, value: Value, custom: Value)
    requires "$form" !in init && "$form" !in ObjMap(custom)
    ensures HasKey(FieldOrForm(init, model, value, custom), "$form") <==> IsContainer(value)
  {
    if IsContainer(value) {
      FormStateShape(init, model, value, custom, false);
    }
  }
}
