# react-redux-form core, modelled in Dafny

This project models the state logic of react-redux-form: the reducers and action creators that keep two parallel trees in a Redux store.

- **The model tree** holds the form's data. The model reducer bound to a model string writes or resets values at a nested object/array path. The model action creators (`push`, `xor`, `toggle`, `filter`, `map`, `remove`, `move`, `merge`, `omit`) each read the current value and produce one CHANGE action.
- **The form tree** holds per-field metadata: focus, touched, pristine, valid, pending, submitted, errors and validity. Two generations of form reducer exist side by side and are modelled separately:
  - The first generation (`V1FormReducer`) keeps a tree that mirrors the model. Every object or array node carries its own metadata under `$form`. A per-action "reaction" patches the addressed record and the `$form` of every node above it.
  - The flat generation (`FormReducer`) keeps a `fields` map keyed by model string. It recomputes the form's `pristine` and `valid` aggregates.
- **Building and reading metadata trees:**
  - `CreateField` builds field and form states that mirror a value.
  - `UpdateField` updates a record or sub-form at a path; `FocusActionReducer` is built on it.
  - `GetFieldFromState` finds a field below a form's own model path.
- **Smaller pieces:**
  - `FieldActions`: the field action creators and the synchronous parts of the validation thunks.
  - `Utils`: the validity helpers.
  - `Sequence`: the checkbox value updater of controls.
  - `ResolveModel`: resolving a relative model string against its parent.

**Values.** State is a JSON-like `Value`: `Undef | Null | Bool | Num | Str | Arr | Obj`. JavaScript truthiness, negation and `&&` are written out (`Truthy`, `Not`, `And`).

**Library stand-ins.** The libraries the code calls are modelled in their own modules:
- `Lodash`: `get` and `set` on key paths. Their path parsing is in `Paths`, in two versions:
  - lodash 4 (`Paths.ToPath`, `Paths.CastPath`): the form reducers, the action creators and the `to-path` and `get` utilities use it. "a[]" gives `["a", ""]`.
  - lodash 3 (`Paths.LegacyToPath`, `Paths.LegacyCastPath`): the model reducer imports lodash 3's `get` and `set`. Their `toPath` keeps only the non-empty runs between '.', '[' and ']', so "a[]" gives `["a"]` and "a..b" gives `["a", "b"]`.
- The model reducer's lodash 3 `set` is `Lodash.SetInLegacy`: a non-null scalar on the path drops the write. `Lodash.LegacySet` relates it to lodash 4's `set` (`Lodash.SetIn`), which replaces such a scalar.
- `Icepick`: `assoc`, `assocIn`, `assign`, `dissoc`, and the deep `merge`. Where both sides hold a plain object under a key, `merge` merges them key by key. Anything else in the source replaces the target's value, and an `undefined` never adds a key.
- `FormReducer.DeepMerge`: seamless-immutable's deep merge.
- `Seqs`: `filter`, `map` and `splice`.
- `utils/get-validity` is not part of this model. `validate`, `validateErrors` and `validateFields` call it; the model uses `Utils.Validate` (`utils/index.js`) in its place. That is one validator function, or a flat object of validator functions applied to the value.

**Errors.** Wherever the source throws, `Result` carries the error. Examples: a property read on `undefined`, a missing path segment in `recurse`, `move` out of bounds, a non-array collection.

Collaborators whose code is not part of this model are function parameters:
- `getForm`
- `isValidityValid` and `isValidityInvalid`
- `form/is-valid`
- the `createInitialState` that `update-field.js` imports
- the initial field state of `create-field.js`
- validators

## Model

| member | source | states |
|---|---|---|
| Actions.TypeOf | src/action-types.js:1-33 | The submit-failed, validating, fields-validity and reset-validity actions carry no type constant, so their type is `undefined`. Each other action kind is recognised by exactly one constant: an action has type CHANGE exactly when it is a change, FOCUS exactly when it is a focus, and so on for all fourteen. No action carries VALIDATE. |
| ModelReducer.Reduce | src/reducers/model-reducer.js:15-47 | An action outside the bound model, or of any type but CHANGE, returns the state unchanged. `undefined` state starts from the initial state, which defaults to `{}`. A change of exactly the bound model replaces the whole state with the action's value. |
| ModelReducer.SuperStateWrite | src/reducers/model-reducer.js:8-13 | Writing below the bound model's path inside the super state, then reading that path back, writes the relative path into the state itself. If the write is dropped, it gives the state back. |
| ModelReducer.NestedChange | src/reducers/model-reducer.js:34-36 | Paths are read as lodash 3 reads them. A plain change below the bound model writes the value at the relative path of the current state. A missing state or intermediate is created. Where a non-null scalar stands in the way, lodash 3 drops the write and the state comes back unchanged. |
| ModelReducer.NestedChangeEffect | src/reducers/model-reducer.js:34-36 | Paths are read as lodash 3 reads them, so "m[]" and "a..b" are covered. When no non-null scalar is in the way, the value is found at the relative path after a nested change. Every path that branches off it keeps its old value. |
| ModelReducer.MultiChangeIsChange | src/reducers/model-reducer.js:15-41 | A change of the multi-value model "p[]" reduces exactly as a change of `p`, including when `p` is the bound model itself. Excluded are a lone key holding ']' and a string of separators only: lodash 3 reads those differently with and without the suffix. |
| ModelReducer.MultiValueChangeExample | test/control-component-spec.js:271-306 | Under model `test` with initial state `{foo: [1]}`, the checkbox group's change of `test.foo[]` to `[]` gives `{foo: []}`. |
| ModelReducer.SuperStateOwn | src/reducers/model-reducer.js:8-36 | Setting the bound model's own path inside the super state and reading it back gives the value set. |
| Paths.LegacyToPathJoin | src/reducers/model-reducer.js:1-2 | Under lodash 3, a dotted join of simple non-empty keys parses back to those keys. |
| Paths.LegacyMultiPath | src/reducers/model-reducer.js:1-2 | Under lodash 3, the suffix "[]" adds no key to a path. |
| Paths.MultiPathVersionsDiffer | src/reducers/form-reducer.js:3 | For a simple key `m`, lodash 4 parses "m[]" as `[m, ""]` and lodash 3 as `[m]`. |
| ModelReducer.NestedChangeDropped | src/reducers/model-reducer.js:34-36 | When a non-null scalar stands in the way (or the state itself is one), a nested change returns the state unchanged. |
| ModelReducer.ScalarInTheWayExample | src/reducers/model-reducer.js:34-36 | Under model `test`, changing `test.foo.bar` to 1 leaves `{foo: 5}` as it is. |
| Lodash.LegacySet | src/reducers/model-reducer.js:2 | Lodash 3's `set` equals lodash 4's everywhere, except where a non-null scalar sits inside the path below containers. There it returns the object unchanged. |
| ModelReducer.NestedReset | src/reducers/model-reducer.js:38-41 | A reset-method change writes, at the relative path, the value found at the same path of the initial state (`undefined` if absent there). A non-null scalar in the way drops the write. |
| ModelReducer.ResetFromInitial | src/reducers/model-reducer.js:38-41 | Starting from the initial state, a reset at a path that exists is a no-op. |
| ModelReducer.ChangeKeepsSiblingExample | test/model-reducer-spec.js:52-59 | Changing `test.foo` to `'new'` in `{foo:'bar', one:'two'}` gives `{foo:'new', one:'two'}`. |
| ModelReducer.ChangeArrayElementExample | test/model-reducer-spec.js:84-85 | Under model `test.foo`, changing `test.foo.bar[1]` to `'two'` turns `[1,2,3]` into `[1,'two',3]`. |
| ModelActions.ChangeAction | src/actions/model-actions.js:20-34 | A CHANGE for the model and value. `silent` defaults to false. `multi` defaults to whether the model ends in `[]`. Given options override both. A given `removeKeys` is carried onto the action, and `method: 'reset'` makes it a reset-method change; otherwise it is a plain change. |
| ModelReducer.ResetThroughChange | src/reducers/model-reducer.js:27-41 | `change(m, v, {method: 'reset'})` reduces as a reset, whatever `v` is: the initial value at the relative path is put back, unless a non-null scalar drops the write. |
| ModelActions.Load | src/actions/model-actions.js:154-156 | `load` is `change` with `silent: true`. |
| ModelActions.ResetAction | src/actions/model-actions.js:80-83 | A RESET action for the model. |
| ModelActions.XorItems | src/actions/model-actions.js:36-39 | If no element matches, the item is appended. Otherwise the result keeps the original order and is a subsequence of the items. It holds every non-matching element with its count, and no matching one. |
| ModelActions.Xor | src/actions/model-actions.js:36-46 | One CHANGE carrying the xor of the current collection (missing reads as `[]`). A non-array value is an error. |
| ModelActions.XorTwice | src/actions/model-actions.js:36-39 | With the default iteratee, xor-ing an absent item twice gives the sequence back. The first xor appends it. |
| ModelActions.XorRemovesAll | src/actions/model-actions.js:38-39 | With the default iteratee, a present item is removed with all its copies. Every other element keeps its count. |
| ModelActions.Spread | src/actions/model-actions.js:50 | `[...(c \|\| [])]`: a falsy collection spreads to nothing and an array to its items. A string spreads to one element per character. Anything else is an error. |
| ModelActions.Push | src/actions/model-actions.js:48-57 | The result is the old collection followed by exactly one more element: the item, or `null` when none is given. |
| ModelActions.Toggle | src/actions/model-actions.js:59-67 | The new value is a boolean that is true exactly when the current value is falsy. |
| ModelActions.FilterAction | src/actions/model-actions.js:69-78 | Every kept element satisfies the iteratee. The result is a subsequence of the collection, so the original order is kept. Each satisfying value keeps its count from the collection and every other value is dropped. A non-array is an error (there is no default collection). |
| ModelActions.MapAction | src/actions/model-actions.js:85-94 | Same length as the collection, each element the iteratee applied to the element at the same index. |
| ModelActions.Remove | src/actions/model-actions.js:96-105 | For an in-range index: one element shorter, earlier elements kept, later ones shifted down, multiset less that element. Always `removeKeys = [index]`. |
| ModelActions.Move | src/actions/model-actions.js:107-123 | Fails exactly when either index is at or past the end. Otherwise it dispatches the moved sequence. |
| ModelActions.MovePermutes | src/actions/model-actions.js:114-116 | An in-bounds move keeps the length and the multiset of elements, and puts the moved element at the target index. |
| ModelActions.MoveInPlace | src/actions/model-actions.js:114-116 | Moving an element to its own index changes nothing. |
| ModelActions.MergeAction | src/actions/model-actions.js:125-133 | The current object (missing reads as `{}`) deep-merged with the given values. A key the values lack keeps the current value. Where both hold a plain object they merge; otherwise the given value wins. A key appears only if it was current or given as something other than `undefined`. |
| ModelActions.MergeActionAbsorbs | src/actions/model-actions.js:125-133 | The merged value already contains both sides. Merging the current object into it, or the given values into it again, changes nothing. |
| Icepick.Merge | src/reducers/v1-form-reducer.js:237-247 | The keys are the target's plus the source's defined ones. A key the source lacks keeps the target's value. Where both hold plain objects they merge; otherwise the source's value wins. A target or source that is not a plain object leaves the target. |
| Icepick.MergeIs | src/reducers/v1-form-reducer.js:237-247 | Any plain object with exactly those keys, holding the merged value under each, is the merge. |
| Icepick.MergeSelf | src/reducers/v1-form-reducer.js:250-252 | Merging a value with itself gives it back. |
| Icepick.MergeAbsorbs | src/reducers/v1-form-reducer.js:250-258 | A merge result extends its target: merging it over the target again gives it back. |
| Icepick.MergeIdempotent | src/actions/model-actions.js:131 | Merging the same source twice is merging it once. |
| Icepick.ExtendsPointwise | src/reducers/v1-form-reducer.js:250-258 | A plain object extends another when it keeps every key, adds no `undefined`, and extends the other's value under every key. |
| Icepick.MergeKeepsTarget | src/utils/update-field.js:39-43 | Along a path that leaves the source's objects before it ends, the merge reads as the target. |
| Icepick.MergeKeepsSource | src/utils/update-field.js:39-41 | Wherever the source holds a defined value that is not a plain object, the merge holds it too. |
| Icepick.Assoc | src/utils/update-field.js:14 | A copy with the key set and every other key kept. If the key already holds the value, `v` itself comes back, so `undefined` never adds a key. A non-index key leaves an array unchanged. |
| Icepick.AssocInGet | src/utils/update-field.js:9 | Reading the written path after `assocIn` gives the value. |
| Icepick.AssocInOther | src/utils/update-field.js:9 | `assocIn` leaves every path that branches off the written one as it was. |
| ModelActions.DissocAll | src/actions/model-actions.js:142-144 | The object loses exactly the listed keys and keeps every other entry. |
| ModelActions.Omit | src/actions/model-actions.js:135-152 | The current object without exactly the listed keys. One key string counts as a one-element list. `removeKeys` lists the keys. |
| Utils.IsMultiForm | src/utils/index.js:7-9 | A model is multi exactly when it is some string followed by `[]`. |
| Utils.IsFocused | src/utils/index.js:11-13 | Truthy exactly when the field exists and is focused. A missing field is returned as it is. |
| Utils.IsPristine | src/utils/index.js:15-17 | The field's flag. A missing field answers `true`, the initial field state's value. |
| Utils.IsTouched | src/utils/index.js:19-21 | The field's flag. A missing field answers `false`, the initial field state's value. |
| Utils.MissingFieldIsInitial | src/utils/index.js:15-21 | A missing field answers every predicate as the initial field state does, and is not focused. |
| Utils.Validate | src/utils/index.js:47-63 | One validator gives its result. An object of validators gives an object with the same keys, each holding that validator's result. That object is valid exactly when every validator passes. |
| ResolveModel.ResolveModel | src/utils/resolve-model.js:4-16 | With a parent, a model starting with `.` or `[` is appended to the parent. Without a parent, or for any other model, it is returned unchanged. |
| ResolveModel.ResolvedPath | src/utils/resolve-model.js:5-8 | A relative `.k` or `[k]` resolves to the path of the parent followed by the key `k`. |
| ResolveModel.ResolveAbsolute | src/utils/resolve-model.js:5-15 | Where resolving returns the model unchanged, resolving again returns it unchanged too. |
| GetFieldFromState.ResolveForm | src/utils/get-field-from-state.js:7-9 | A state carrying `$form` is itself the form. A falsy state goes to `getForm`. |
| GetFieldFromState.GetFieldFromState | src/utils/get-field-from-state.js:6-23 | Answers `null` with no form or no field, and the form for the empty model string. Otherwise it answers the entry at the model path minus the form's own model path: a sub-form answers its `$form`, a field itself. |
| GetFieldFromState.OwnFormIgnoresLookup | src/utils/get-field-from-state.js:7-9 | For a state that is a form, the answer does not depend on `getForm`. |
| GetFieldFromState.FieldBelowForm | src/utils/get-field-from-state.js:15-22 | For a model whose path is the form's path followed by `rest`, the answer is what sits at `rest` inside the form. |
| FocusActionReducer.SetFocusActionReducer | src/reducers/form/focus-action-reducer.js:5-13 | A non-FOCUS action returns the state unchanged. FOCUS is `updateField` with the patch `{focus: true}`. |
| FocusActionReducer.FocusRecord | src/reducers/form/focus-action-reducer.js:10-12 | After FOCUS the addressed record (a sub-form's `$form`) is focused and keeps every other key. Every path branching off it is unchanged. |
| FocusActionReducer.FocusAssigned | src/utils/update-field.js:87-89 | Assigning the focus patch sets `focus` and nothing else. |
| FocusActionReducer.FocusLazyNestedField | src/utils/update-field.js:36-46 | Take a form whose sub-form `foo` has no `bar`, where the created state holds `foo.bar` as a field record. FOCUS on `foo.bar` finds the created record and focuses it, keeping every other key. The `$form` of `foo` and of the form stay as they were. |
| UpdateField.AssocIn | src/utils/update-field.js:7-18 | An empty path assigns the value's keys into the state. Without an updater it is icepick `assocIn`. With one, the result is what the updater returns at the root. |
| UpdateField.AssocInIdentity | src/utils/update-field.js:11-17 | With the identity as updater, the updater form equals plain `assocIn`. |
| UpdateField.AssocInPlain | src/utils/update-field.js:9 | Without an updater, reading the path returns the value. Every path branching off it is unchanged. |
| UpdateField.TempInitialState | src/utils/update-field.js:20-26 | For a non-empty path: an object with the path's first key as its only key. |
| UpdateField.TempInitialStateHolds | src/utils/update-field.js:20-26 | The chain holds the initial value (or `null` for `undefined`) at the path, and every level above has exactly one key. |
| UpdateField.GetFieldAndForm | src/utils/update-field.js:28-47 | No form is an error. An existing record is returned with the form unchanged. In every success the field is what the returned form holds at the path. |
| UpdateField.LazyForm | src/utils/update-field.js:36-43 | A missing record in a form with a `$form` is read from the existing form deep-merged over the created state. |
| UpdateField.LazyFieldFound | src/utils/update-field.js:39-43 | If the existing form stops holding plain objects along the path before it ends, the record found is the created state's. |
| UpdateField.LazyFormKeepsState | src/utils/update-field.js:39-41 | Lazy creation keeps every defined non-object value of the existing form where it was. |
| UpdateField.SubFormState | src/utils/update-field.js:67-80 | The rebuilt sub-form has the same keys. `$form` gets the update assigned, and every child gets its own sub-update assigned. |
| UpdateField.UpdateField | src/utils/update-field.js:49-90 | A record still missing after lazy creation leaves the state unchanged. A field gets the update assigned. A sub-form without `newSubState` gets it on its `$form`. With `newSubState` at the root, the rebuilt sub-form is returned. |
| UpdateField.UpdateExistingRecord | src/utils/update-field.js:49-89 | On an existing record with no updater, the record (a sub-form's `$form`) becomes itself with the update assigned. Every path branching off it is untouched. |
| UpdateField.SubFormRebuilt | src/utils/update-field.js:67-85 | With `newSubState`, a sub-form below the root is replaced by its rebuilt form. |
| CreateField.CreateFieldState | src/utils/create-field.js:27-35 | Keys are those of the initial state, the custom state, and `model`/`value`/`initialValue`. Later layers win and `initialValue` equals `value`. |
| CreateField.SubModel | src/utils/create-field.js:21-25 | The child model string is `model.key`, or just `key` under an empty model. |
| CreateField.GetMeta | src/utils/create-field.js:15-19 | Reads from a truthy `$form` when there is one, else from the record. A missing record is an error. |
| CreateField.MetaOfCreated | src/utils/create-field.js:6-19 | `getMeta` reads a built field and a built form alike. Both answer the model string and the value they were built from, as `model`, `value` and `initialValue`. |
| CreateField.FormStateShape | src/utils/create-field.js:37-51 | A form state always has `$form`. Lazy, it has nothing else. Otherwise it has one more key per entry, holding the entry's field or form state under the child model string. |
| CreateField.NestedModelJoins | src/utils/create-field.js:44-48 | Below the empty root model, a nested model string is the dotted join of its keys. |
| CreateField.NestedModelParses | src/utils/create-field.js:21-25 | The nested model strings parse back (by `toPath`) to the keys that lead to them. |
| CreateField.CreatedTreeMirrors | src/utils/create-field.js:6-51 | At every path present in the value, the built tree holds the field or form state of the sub-value there, under the nested model string. |
| CreateField.CreatedLeaf | src/utils/create-field.js:27-35 | Every leaf of the built tree is a record naming its nested model string and holding its value as `value` and `initialValue`. |
| CreateField.FormExactlyForContainers | src/utils/create-field.js:6-12 | A built state has `$form` exactly when the value is an array or plain object, unless the initial or custom state itself uses `$form`. |
| FieldActions.SetPendingAction | src/actions/field-actions.js:40-44 | SET_PENDING for the model, with `pending` true when none is given. |
| FieldActions.SetValidatingAction | src/actions/field-actions.js:46-50 | The validating action for the model, with the flag true when none is given. |
| FieldActions.SetSubmittedAction | src/actions/field-actions.js:112-116 | SET_SUBMITTED for the model, with the flag true when none is given. |
| FieldActions.SetSubmitFailedAction | src/actions/field-actions.js:118-122 | The submit-failed action for the model, with the flag true when none is given. |
| FieldActions.SetValidityAction | src/actions/field-actions.js:52-58 | With a truthy `errors` option it is SET_ERRORS carrying `errors`. Otherwise it is SET_VALIDITY carrying `validity`. |
| FieldActions.SetErrorsAction | src/actions/field-actions.js:67-71 | SET_ERRORS for the model carrying the errors. Whatever other options are given, it equals `setValidity` with `errors: true` alone. |
| FieldActions.SetFieldsValidityAction | src/actions/field-actions.js:60-65 | The fields-validity action keeps the model, the validity map and the options. |
| FieldActions.SetFieldsErrorsAction | src/actions/field-actions.js:73-77 | A fields-validity action whose options are the given ones with `errors: true`. |
| FieldActions.ValidateAction | src/actions/field-actions.js:190-195 | One SET_VALIDITY for the model, carrying the validators' result on the value at the model. |
| FieldActions.ValidateErrorsAction | src/actions/field-actions.js:197-202 | One SET_ERRORS for the model, carrying the error validators' result on the value at the model. |
| FieldActions.IsFormValidWithoutFields | src/actions/field-actions.js:204-223 | False when the form-level validity is non-empty and not valid. Otherwise true exactly when every non-`$form` field not covered by `fieldsValidity` is valid. Fails when `$form` or its validity is missing. |
| FieldActions.WithoutFieldsMonotone | src/actions/field-actions.js:211-217 | Adding keys to `fieldsValidity` never changes whether the check throws. It can only turn `false` into `true`. |
| FieldActions.WithoutFieldsCovered | src/actions/field-actions.js:211-217 | When `fieldsValidity` covers every field, the answer does not depend on any field's own validity. |
| FieldActions.FieldValue | src/actions/field-actions.js:229-231 | Key `''` selects the whole value. Any other key selects the sub-value at that key. |
| FieldActions.FieldsValidity | src/actions/field-actions.js:228-236 | Exactly the validator keys, each holding its validator's result on the value that key selects. |
| FieldActions.ValidateFieldsAction | src/actions/field-actions.js:225-263 | A fields-validity action for the model carrying the key-wise validity. It is marked `errors` exactly when the `errors` option is set. |
| FieldActions.ValidateFieldsCallback | src/actions/field-actions.js:238-256 | No callback is called unless one is given. `onValid` is called exactly when it is given and both the form and the fields are valid; `onInvalid` is called otherwise, if given. |
| FieldActions.AsyncSetValidity | src/actions/field-actions.js:96-110 | Validating is dispatched first. A SET_VALIDITY for the same model follows exactly when the validator returns a defined result at once. |
| Sequence.UpdaterFor | src/utils/sequence.js:103-104 | The checkbox updater is chosen exactly for the `checkbox` type. Every other type gets the default. |
| Sequence.CheckboxValue | src/utils/sequence.js:33-47 | A single checkbox negates the model value. A multi checkbox gives an array, and fails exactly on a truthy non-array value. |
| Sequence.MultiCheckboxIsXor | src/utils/sequence.js:36-43 | A multi checkbox computes what the `xor` model action computes with the default iteratee. |
| Sequence.MultiCheckboxAdds | src/utils/sequence.js:39-40 | An unchecked value is appended. |
| Sequence.MultiCheckboxRemoves | src/utils/sequence.js:38-41 | A checked value is removed with all its copies. Every other value keeps its count. |
| Sequence.MultiCheckboxFromNothing | src/utils/sequence.js:37 | A missing model value reads as `[]`, so the first check gives a one-element array. |
| Sequence.MultiCheckboxTwice | src/utils/sequence.js:36-43 | Checking and then unchecking the same value gives the array back. |
| Sequence.SingleCheckboxIsToggle | src/utils/sequence.js:46 | A single checkbox dispatches what the `toggle` model action would. |
| Sequence.UpdateValue | src/utils/sequence.js:32-49 | The default updater returns the event value unchanged. The checkbox updater is `CheckboxValue`. |
| Sequence.DispatchChangeValue | src/utils/sequence.js:146-154 | A control whose value is not read-only dispatches the event unchanged. |
| Sequence.ReadOnlyControls | src/utils/sequence.js:52-55 | A radio input dispatches its own `value` prop. A checkbox input runs the checkbox updater on that prop. Any other element dispatches the event. |
| FormReducer.GetField | src/reducers/form-reducer.js:26-34 | The record under `undefined.<model>` if present, else under the model, else `{foo: undefined}`. |
| FormReducer.SetFieldEffect | src/reducers/form-reducer.js:14-24 | On the form's own model, the props are assigned into the form and the fields stay. On any other model, exactly one field record is written: props over the old record over the initial field state. |
| FormReducer.MergeField | src/reducers/form-reducer.js:74-117 | A deep merge into `fields` adds the field's key and leaves every other field as it was. |
| FormReducer.ValidityErrorsEffect | src/reducers/form-reducer.js:128-133 | An object validity gives the old errors with each validity key overridden by an error that is truthy exactly when that validity entry is falsy. A scalar gives the boolean `!validity`. |
| FormReducer.Reduce | src/reducers/form-reducer.js:57-63 | An action whose first path segment is not the form's model returns the state (default: the initial form state) unchanged. Otherwise the form's `model` is set. |
| FormReducer.ReduceApplies | src/reducers/form-reducer.js:65-73 | An addressed action runs the type switch on the state with its `model` set. |
| FormReducer.FocusField | src/reducers/form-reducer.js:74-85 | FOCUS gives the field `focus` true and `blur` false, with every other scalar flag from the initial field state. Other fields stay. |
| FormReducer.ChangeMarksDirty | src/reducers/form-reducer.js:87-101 | CHANGE and SET_DIRTY make both the field and the form dirty and not pristine. Other fields stay. |
| FormReducer.BlurField | src/reducers/form-reducer.js:103-117 | BLUR and SET_TOUCHED make the field touched, not untouched, not focused and blurred. Other fields stay. |
| FormReducer.SetPendingField | src/reducers/form-reducer.js:119-125 | SET_PENDING on a field stores `pending` and clears `submitted`. Other fields and the form's own properties stay. |
| FormReducer.SetPendingOnForm | src/reducers/form-reducer.js:14-17 | SET_PENDING on the form's own model sets the form's `pending` and `submitted: false`, and leaves the fields. |
| FormReducer.SetValidityObject | src/reducers/form-reducer.js:127-147 | The field's errors override the old errors with the negated validity. The field is valid exactly when all its errors are falsy. The form is valid exactly when every field is valid and no form-level error is set. |
| FormReducer.SetValidityScalar | src/reducers/form-reducer.js:133-140 | For a scalar validity the field's `valid` is the errors flag `!validity` itself, as written. |
| FormReducer.SetPristineAggregate | src/reducers/form-reducer.js:149-162 | The field becomes pristine and not dirty. The form is pristine exactly when every field is, and dirty exactly when it is not pristine. |
| FormReducer.SetUntouchedField | src/reducers/form-reducer.js:164-170 | SET_UNTOUCHED makes the field untouched. Other fields and the form's own properties stay. |
| FormReducer.SetSubmittedField | src/reducers/form-reducer.js:172-177 | SET_SUBMITTED stores `!!submitted` in the field. Other fields and the form's own properties stay. |
| FormReducer.SetInitialField | src/reducers/form-reducer.js:179-183 | SET_INITIAL and RESET give every initial-state property of the field its initial value. Other fields stay. |
| FormReducer.SetViewValueOnly | src/reducers/form-reducer.js:185-188 | SET_VIEW_VALUE changes only the field's `viewValue`. Properties the record lacked come from the initial field state. |
| V1FormReducer.InitialRecordFields | src/reducers/v1-form-reducer.js:57-59 | The initial record holds every initial field flag and, unless the value is `undefined`, `initialValue`. |
| V1FormReducer.InitialRecordIsMerge | src/reducers/v1-form-reducer.js:57-64 | The initial record is icepick's merge of the initial field state with `{initialValue}`. |
| V1FormReducer.GetField | src/reducers/v1-form-reducer.js:38-47 | A non-object state is an error. An absent path gives the initial field state. A present one gives the record there. |
| V1FormReducer.GetFieldOfInitial | src/reducers/v1-form-reducer.js:38-67 | On the initial tree, `getField` at a present path avoiding `$form` answers the leaf's initial record. For a node it answers the sub-form whose `$form` is the node's initial record. |
| V1FormReducer.InitialStateShape | src/reducers/v1-form-reducer.js:49-67 | A leaf becomes its initial record. A node gets exactly one entry per own key (array slots by index), each that entry's initial tree, plus `$form` holding the node's initial record. |
| V1FormReducer.InitialStateMirrors | src/reducers/v1-form-reducer.js:49-67 | Below every present path, the initial tree is the initial tree of the sub-value found there. |
| V1FormReducer.InitialStateRemembers | src/reducers/v1-form-reducer.js:57-64 | Every node of the initial tree remembers its value: sub-forms in `$form.initialValue`, fields in `initialValue`. |
| V1FormReducer.FormIsValidMeaning | src/reducers/v1-form-reducer.js:69-73 | Valid exactly when every entry, `$form` included, is valid and no form-level error is set. A missing entry throws. An invalid `$form` is never valid. |
| V1FormReducer.ReactionOf | src/reducers/v1-form-reducer.js:75-204 | Each action type gets its reaction, reading the action's own properties. CHANGE, RESET, SET_INITIAL and SET_VIEW_VALUE have none. Types without a constant fall under `"undefined"`, the submit-failed reaction. |
| V1FormReducer.ValidFromValidity | src/reducers/v1-form-reducer.js:120-136 | SET_VALIDITY's `valid` is true exactly when every entry of an object validity is truthy, or a scalar validity is truthy. |
| V1FormReducer.FieldReactionEffect | src/reducers/v1-form-reducer.js:75-191 | The field patch fails only on a property read of a missing value. It never touches `$form`. Each reaction sets its flags: blur's `retouched` is whether the parent `$form` was submitted or submit-failed; errors store the errors, their inversion and its validity. |
| V1FormReducer.FormReactionEffect | src/reducers/v1-form-reducer.js:75-191 | The form patch is the fixed record for focus, pristine, dirty, pending, submitted and submit-failed. Untouched returns the `$form` itself. Blur sets the flags and fails without `$form`. Validity and errors give `formIsValid`'s verdict on the node. |
| V1FormReducer.SubFieldReaction | src/reducers/v1-form-reducer.js:185-189 | Only submit-failed patches the children of an addressed sub-form. Every other reaction leaves them as they are. |
| V1FormReducer.MapFieldsEffect | src/reducers/v1-form-reducer.js:206-216 | Every key but `$form` is kept and merged with its sub-field reaction. This fails exactly under submit-failed with a missing child. |
| V1FormReducer.UpdateRecord | src/reducers/v1-form-reducer.js:235-248 | The terminal update of a missing node fails. |
| V1FormReducer.UpdateRecordEffect | src/reducers/v1-form-reducer.js:235-248 | An addressed object is merged with the field patch: on its `$form` for a sub-form, or directly for a field record. |
| V1FormReducer.UpdateSubForm | src/reducers/v1-form-reducer.js:236-245 | An addressed sub-form keeps its `$form` key, merged with the field patch. |
| V1FormReducer.UpdateSubFormKeeps | src/reducers/v1-form-reducer.js:241-243 | Every child of an addressed sub-form is kept unless the reaction is submit-failed. |
| V1FormReducer.UpdateField | src/reducers/v1-form-reducer.js:247 | An addressed field record is merged with the field patch and gains no `$form`. |
| V1FormReducer.ClimbEffect | src/reducers/v1-form-reducer.js:250-258 | One step back up deep-merges the updated child into the old one. The parent's `$form` is merged with the form reaction's patch, which sees the parent with its new child. |
| V1FormReducer.ClimbKeeps | src/reducers/v1-form-reducer.js:250-252 | One step back up keeps every other key of the parent. |
| V1FormReducer.ClimbExtends | src/reducers/v1-form-reducer.js:250-258 | If the new child extends the old one, the node after the step extends the old node. The merges only add. |
| V1FormReducer.UpdateRecordGrows | src/reducers/v1-form-reducer.js:235-248 | The terminal update merges into the node, so its result extends the node. |
| V1FormReducer.StepGrafts | src/reducers/v1-form-reducer.js:250-258 | Every reaction's step back up grafts: the child goes in place and every other non-`$form` key is kept. |
| V1FormReducer.FormActionReducer | src/reducers/v1-form-reducer.js:218-262 | An action type without a reaction leaves the state unchanged. Otherwise `recurse` runs along the path, reading the `$form` beside the addressed record. |
| V1FormReducer.DefaultFormState | src/reducers/v1-form-reducer.js:264-268 | With no initial state and no state, the reducer starts from `{$form: …}`: the initial field state with `initialValue: {}`, and no other key. |
| V1FormReducer.CreateFormReducer | src/reducers/v1-form-reducer.js:264-280 | An `undefined` initial state defaults to `{}`. An `undefined` state defaults to the initial tree of the initial state. An action with no model, or whose path does not start with the model's path segment by segment, leaves the state unchanged. Others run on the path below the model. |
| V1FormReducer.WalkTarget | src/reducers/v1-form-reducer.js:232-259 | After the walk, the addressed path holds what the terminal update made of the node there. |
| V1FormReducer.WalkExtends | src/reducers/v1-form-reducer.js:232-259 | If the steps graft and the terminal update only adds, the whole walk's result extends the node it started from. |
| V1FormReducer.WalkSiblings | src/reducers/v1-form-reducer.js:250-252 | Off the addressed path, at every level, every sibling is kept. |
| V1FormReducer.WalkAt | src/reducers/v1-form-reducer.js:250-252 | Descending a prefix of the path commutes with the walk. |
| V1FormReducer.WalkAncestor | src/reducers/v1-form-reducer.js:250-258 | At every node above the addressed record, the walk leaves the step back up applied to that node and to the walk's result one level down. |
| V1FormReducer.RecurseTarget | src/reducers/v1-form-reducer.js:235-248 | The addressed record after `recurse` is the terminal update of what was there. |
| V1FormReducer.RecurseSiblings | src/reducers/v1-form-reducer.js:250-252 | Only `parentKey` is reassigned, so every sibling at every level is kept. |
| V1FormReducer.RecurseAncestor | src/reducers/v1-form-reducer.js:254-258 | The `$form` of every node above the addressed record is merged with the form reaction's patch. That patch sees the `$form` and the node with its updated child. |
| V1FormReducer.AddressedRecord | src/reducers/v1-form-reducer.js:227-261 | The record the reducer addresses is the terminal update of what was at the path. |
| V1FormReducer.AddressedKey | src/reducers/v1-form-reducer.js:235-248 | Where the field patch has a key, the addressed record's key reads as the patch's value deep-merged over the old one. Elsewhere it reads as the old value. |
| V1FormReducer.AncestorsPatched | src/reducers/v1-form-reducer.js:254-258 | For reactions with a fixed form patch, every `$form` above the addressed record is merged with that patch. |
| V1FormReducer.FocusMarksPath | src/reducers/v1-form-reducer.js:76-79 | FOCUS focuses the addressed record and the `$form` of every node above it, and keeps every sibling along the way. |
| V1FormReducer.FocusRecord | src/reducers/v1-form-reducer.js:78 | After FOCUS the addressed record is focused. |
| V1FormReducer.FocusAncestor | src/reducers/v1-form-reducer.js:77 | After FOCUS the `$form` of every node above the record is focused. |
| V1FormReducer.ReducerKeepsSiblings | src/reducers/v1-form-reducer.js:250-252 | Every action with a reaction keeps the siblings along its path as they were. |
| V1FormReducer.SubmittedMarksPath | src/reducers/v1-form-reducer.js:159-173 | SET_SUBMITTED clears `pending`, sets `submitted = !!s`, `submitFailed = !s` and `touched`. It does so on the addressed record and on every `$form` above it. |
| V1FormReducer.SubmittedTarget | src/reducers/v1-form-reducer.js:167-172 | The addressed record carries the SET_SUBMITTED flags. |
| V1FormReducer.SubmittedAncestor | src/reducers/v1-form-reducer.js:160-166 | Every `$form` above the record carries the SET_SUBMITTED flags. |
| V1FormReducer.BlurRetouches | src/reducers/v1-form-reducer.js:88-101 | BLUR and SET_TOUCHED unfocus and touch the record. It is retouched exactly when the `$form` beside it records a submission or a failed one. |
| V1FormReducer.SetValidityOnRecord | src/reducers/v1-form-reducer.js:120-138 | SET_VALIDITY merges the validity into the record's old one, so old keys the new object lacks stay. A non-object validity replaces it. The record is marked validated. It is valid exactly when the new validity is truthy (every entry of an object). |
| V1FormReducer.SetErrorsOnRecord | src/reducers/v1-form-reducer.js:139-158 | SET_ERRORS merges the errors into the old ones (old keys the new object lacks stay) and their key-wise negation into the old validity. The record is marked validated. It is valid exactly when the new errors hold no error. |
| V1FormReducer.InvalidFormStaysInvalid | src/reducers/v1-form-reducer.js:69-73 | `formIsValid` reads the `$form` entry's own `valid`, so a node above the record whose `$form` was invalid stays invalid under SET_VALIDITY and SET_ERRORS. |
| V1FormReducer.ClimbInvalid | src/reducers/v1-form-reducer.js:128-131 | A step back up under validity or errors leaves an invalid `$form` invalid. |
| V1FormReducer.StillInvalid | src/reducers/v1-form-reducer.js:71-72 | Replacing a child never makes a node with an invalid `$form` valid. |

## Left out

- React components (`Field`, `Control`, `Form`, `Errors`) and the model-resolving wrapper component: rendering and lifecycle, with no state logic of their own.
- `submit`, `submitFields`, `validSubmit` and the later `done` callback of `asyncSetValidity`: promise and asynchronous plumbing.
  - `FieldActions.AsyncSetValidity` models only the synchronous run.
- `trackable`: treated as the identity.
- Thunks are functions from the store state to the action they dispatch. `dispatch`/`getState` are not modelled.
- DOM events: `isEvent`, `getEventValue` and the non-event test in `getValue`. Values are never events here.
- From `sequence.js`, left out because they are event plumbing:
  - the `compose`/`memoize` event pipeline
  - parsers
  - `persistEventWithCallback`
  - the asynchronous validation wiring
- `modeled-enhancer.js`, the Immutable.js wrapper, `console.log`/`console.warn`/`console.error`: no state logic.
- The stray `wtf: 'nah'` key of the SET_SUBMITTED form reaction: a debugging leftover with no reader.
- The function-typed `model` branch of `resolveModel`: model strings only.
- Collaborators whose code is not part of this model are parameters. This covers:
  - `getForm`
  - `isValidityValid` and `isValidityInvalid`
  - `form/is-valid`
  - the `createInitialState` that `update-field.js` imports and `form-reducer.js` does not export
  - `create-field.js`'s initial field state
  - validators
- Library stand-ins. `utils/get`, `to-path`, `map-values` and `arrays-equal` are stood in for by `Lodash.GetIn`, `Paths.ToPath`, `Values.Entries` and sequence prefix equality.
  - `toPath` does not model quoted keys (`a["b.c"]`) or bracketed decimals (`a[1.5]`), in either lodash version.
  - Prototype-chain keys are not modelled.
- Icepick.Merge: icepick also merges a plain object into an array, writing the object's keys into the array. A `Value` array cannot hold non-index keys. So under a key the model lets the object replace the array, and a merge whose target or source is not a plain object returns the target.
- Reference identity and structural sharing: "nothing else changes" is stated as value equality.
- ModelActions.SameAs: `xor`'s default iteratee `value === item` compares arrays and objects by reference. The model compares values, because a `Value` has no identity; the two agree on scalars. On object items the source's `xor` matches only the very same object, while the checkbox updater compares with `isEqual`.
- ModelActions.XorRemovesAll, ModelActions.XorTwice: with the default iteratee these hold in the source for scalar items. For object items they hold only when the item is the stored object itself.
- Sequence.MultiCheckboxIsXor: the checkbox updater (`isEqual`) and `xor` (`===`) agree on scalar values only. For object values the source's two differ, and the model shows both as the structural comparison.
- ModelReducer.Reduce, ModelReducer.NestedChange: lodash 3's `set` and `get` use the whole model string as one key when the object already has that key (`{'a.b': 1}`). The model always splits the string by `LegacyCastPath`.
- ModelReducer.Reduce: three lodash 3 details of path reading are not modelled. `get` splits a string holding ']' but no '.' or '[' ("a]b"), which the model, like `set`, takes as one key. `set` takes a string with an unclosed '[' as one key, which the model splits. And `get` with an empty path (a model made of separators only) answers `undefined`, where the model answers the object. Quoted keys (`a["b.c"]`) and bracketed decimals (`a[1.5]`), each one key in lodash 3, are split or read as plain runs.
- Lodash.Put: a non-index key written into an array becomes an expando property in JavaScript, which a `Value` array cannot carry, so the model drops that write and leaves the array unchanged. Paths that address an array with a non-index key (for example lodash 4's "a[]" on an array) are affected.
- ModelActions.ChangeAction: `change` spreads every option key onto the action. The model carries the four a reader of the action looks at: `silent`, `multi`, `removeKeys` and `method`. Other keys have no field in `Action`.
- `Utils.Validate`: validator objects nested below the first level are not modelled; each entry is one validator function.
- Numbers are integers, with no floating point.
- Arrays of form state are plain objects keyed by index strings ("0", "1", …). A JavaScript array carrying a `$form` property has no `Value` counterpart.
- The flat form state's `field(name)` lookup closure is not part of the value.
- The development-mode check of the first-generation `getField` is always on. A non-object state is an error.
- `plugins`/`composeReducers` of the first-generation `createFormReducer`: the code after its `return` is unreachable.
- Action-type imports are reconciled. `field-actions.js`, `model-actions.js`, `focus-action-reducer.js` and `v1-form-reducer.js` default-import `../action-types`, which has only named exports. As written, `actionTypes` is `undefined` there, and every `actionTypes.X` read throws; in `v1-form-reducer.js` that already happens when the module loads, through the computed keys of `reactions`. The model reads `actionTypes.X` as the named constant `X`, as `form-reducer.js` does with its namespace import.
- Other cross-file mismatches are kept as written, once the imports are reconciled:
  - `reset` in `model-actions.js` dispatches `rsf/reset`, which the model reducer ignores.
  - The four action types missing from `action-types.js` read as `undefined`. This puts them all under the first-generation reducer's `"undefined"` reaction, the submit-failed one.
- UpdateField.AssocIn: with an updater, the contract says only that the result is the updater's output at the root. The per-level behaviour is stated through `UpdateField.AssocInIdentity` and the body, not a general lemma.
- ModelActions.Spread: for a string, the contract states the length of the spread, not the characters.
- UpdateField.TempInitialState: an empty path, on which the source never ends its recursion, is excluded by the precondition.
