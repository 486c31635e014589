/**
 * The model reducer bound to a model string: it ignores actions outside its model, and on a
 * change writes the value (or the initial value, for a reset-method change) at the action's
 * path inside a copy of its state placed at the bound model's path. Paths and writes are
 * lodash 3's `get` and `set`, the version the reducer imports: empty segments are skipped (so
 * the multi-value model "m[]" names the same place as "m"), and a non-null scalar on the path
 * drops the write.
 */
module ModelReducer {
  import opened Wrappers
  import opened Indices
  import opened Values
  import opened Paths
  import opened Actions
  import opened Lodash
  import ModelActions

  /** `getSuperState(model, state)`: the state set at `model` inside a fresh object. */
  function SuperState(model: string, s: Value): (r: Value)
    ensures r.Obj?
  {
    SetInLegacy(Obj(map[]), LegacyCastPath(model), s)
  }

  /** A fresh object never stops a write, so the super state is the lodash 4 write as well. */
  lemma SuperStateFresh(model: string, s: Value)
    ensures SuperState(model, s) == SetIn(Obj(map[]), LegacyCastPath(model), s)
  {
    LegacySet(Obj(map[]), LegacyCastPath(model), s);
  }

  /**
   * Where a write at `rel` below the state is dropped: the state is itself a non-null scalar,
   * or a non-null scalar stands inside `rel`.
   */
  predicate Dropped(s: Value, rel: seq<string>)
  {
    if IsContainer(s) then Blocked(s, rel) else s != Undef && s != Null
  }

  /** `initialState = {}` */
  function InitialOrDefault(initial: Value): (r: Value)
    ensures initial != Undef ==> r == initial
    ensures initial == Undef ==> r == Obj(map[])
  {
    if initial == Undef then Obj(map[]) else initial
  }

  /** The reducer `createModelReducer(model, initial)` returns, applied to `state` and `a`. */
  function Reduce(model: string, initial: Value, state: Value, a: Action): (r: Value)
    ensures var s := if state == Undef then InitialOrDefault(initial) else state;
      model != "" && !StartsWith(a.model, model) ==> r == s
    ensures var s := if state == Undef then InitialOrDefault(initial) else state;
      TypeOf(a) != Some(CHANGE) ==> r == s
    ensures ((model == "" || StartsWith(a.model, model)) && TypeOf(a) == Some(CHANGE)
             && MethodOf(a) == PlainChange && a.model == model) ==> r == ValueOf(a)
  {
    var init := InitialOrDefault(initial);
    var s := if state == Undef then init else state;
    if model != "" && !StartsWith(a.model, model) then s
    else if TypeOf(a) != Some(CHANGE) then s
    else
      var super := SuperState(model, s);
      match MethodOf(a)
      case PlainChange =>
        if a.model == model then ValueOf(a)
        else GetIn(SetInLegacy(super, LegacyCastPath(a.model), ValueOf(a)), LegacyCastPath(model))
      case ResetChange =>
        GetIn(SetInLegacy(super, LegacyCastPath(a.model), GetIn(SuperState(model, init), LegacyCastPath(a.model))), LegacyCastPath(model))
  }

  /**
   * Writing at a path that extends `model`'s path inside the super state writes into the state,
   * unless the write is dropped, in which case the state comes back as it was.
   */
  lemma SuperStateWrite(model: string, s: Value, rel: seq<string>, x: Value)
    requires |LegacyCastPath(model)| > 0 && |rel| > 0
    ensures GetIn(SetInLegacy(SuperState(model, s), LegacyCastPath(model) + rel, x), LegacyCastPath(model))
      == if Dropped(s, rel) then s else SetIn(Holder(s, rel[0]), rel, x)
  {
    var mp := LegacyCastPath(model);
    var super := SuperState(model, s);
    SuperStateFresh(model, s);
    FreshObjWritable(mp);
    GetSetSame(Obj(map[]), mp, s);
    WritableAfterSet(Obj(map[]), mp, s);
    ReachesAfterSet(Obj(map[]), mp, s);
    BlockedBelow(super, mp, rel);
    LegacySet(super, mp + rel, x);
    if !Dropped(s, rel) {
      GetSetBelow(super, mp, rel, x);
    }
  }

  /** Writing at the bound model's own path inside the super state reads back the value written. */
  lemma SuperStateOwn(model: string, s: Value, x: Value)
    requires |LegacyCastPath(model)| > 0
    ensures GetIn(SetInLegacy(SuperState(model, s), LegacyCastPath(model), x), LegacyCastPath(model)) == x
  {
    var mp := LegacyCastPath(model);
    var super := SuperState(model, s);
    SuperStateFresh(model, s);
    FreshObjWritable(mp);
    WritableAfterSet(Obj(map[]), mp, s);
    ReachesAfterSet(Obj(map[]), mp, s);
    ReachedNotBlocked(super, mp);
    LegacySet(super, mp, x);
    GetSetSame(super, mp, x);
  }

  lemma FreshObjWritable(path: seq<string>)
    ensures Writable(Obj(map[]), path)
  {
    if |path| > 1 {
      FreshWritable(path[1..]);
    }
  }

  /**
   * A plain change below the bound model writes the value at the relative path of the state
   * (a missing state is first replaced by a fresh container); where a non-null scalar is in
   * the way, the state is returned as it was.
   */
  lemma NestedChange(model: string, initial: Value, state: Value, a: Action, rel: seq<string>)
    requires a.Change? && a.changeMethod == PlainChange && StartsWith(a.model, model) && a.model != model
    requires |LegacyCastPath(model)| > 0 && |rel| > 0 && LegacyCastPath(a.model) == LegacyCastPath(model) + rel
    ensures var s := if state == Undef then InitialOrDefault(initial) else state;
      Reduce(model, initial, state, a) == if Dropped(s, rel) then s else SetIn(Holder(s, rel[0]), rel, a.value)
  {
    var s := if state == Undef then InitialOrDefault(initial) else state;
    SuperStateWrite(model, s, rel, a.value);
  }

  /**
   * Hence, when nothing is in the way, the changed value is found at the relative path, and
   * every path of the state that branches off it keeps its value.
   */
  lemma NestedChangeEffect(model: string, initial: Value, state: Value, a: Action, rel: seq<string>)
    requires a.Change? && a.changeMethod == PlainChange && StartsWith(a.model, model) && a.model != model
    requires |LegacyCastPath(model)| > 0 && |rel| > 0 && LegacyCastPath(a.model) == LegacyCastPath(model) + rel
    requires var s := if state == Undef then InitialOrDefault(initial) else state;
      IsContainer(s) && Writable(s, rel) && !Blocked(s, rel)
    ensures GetIn(Reduce(model, initial, state, a), rel) == a.value
    ensures var s := if state == Undef then InitialOrDefault(initial) else state;
      forall q: seq<string>, i: nat ::
        i < |rel| && i < |q| && rel[..i] == q[..i] && rel[i] != q[i] ==>
        GetIn(Reduce(model, initial, state, a), q) == GetIn(s, q)
  {
    var s := if state == Undef then InitialOrDefault(initial) else state;
    NestedChange(model, initial, state, a, rel);
    GetSetSame(s, rel, a.value);
    forall q: seq<string>, i: nat | i < |rel| && i < |q| && rel[..i] == q[..i] && rel[i] != q[i]
      ensures GetIn(SetIn(s, rel, a.value), q) == GetIn(s, q)
    {
      GetSetOther(s, rel, q, i, a.value);
    }
  }

  /** A reset-method change puts back the initial value found at the same relative path. */
  lemma NestedReset(model: string, initial: Value, state: Value, a: Action, rel: seq<string>)
    requires a.Change? && a.changeMethod == ResetChange && StartsWith(a.model, model)
    requires |LegacyCastPath(model)| > 0 && |rel| > 0 && LegacyCastPath(a.model) == LegacyCastPath(model) + rel
    ensures var s := if state == Undef then InitialOrDefault(initial) else state;
      var init := InitialOrDefault(initial);
      var v := GetIn(Holder(init, rel[0]), rel);
      Reduce(model, initial, state, a) == if Dropped(s, rel) then s else SetIn(Holder(s, rel[0]), rel, v)
  {
    var s := if state == Undef then InitialOrDefault(initial) else state;
    var init := InitialOrDefault(initial);
    ResetSource(model, init, rel);
    var v := GetIn(SuperState(model, init), LegacyCastPath(a.model));
    assert Reduce(model, initial, state, a) == GetIn(SetInLegacy(SuperState(model, s), LegacyCastPath(a.model), v), LegacyCastPath(model));
    SuperStateWrite(model, s, rel, v);
  }

  /**
   * `change(m, v, {method: 'reset'})` is the reset-method change: whatever value it carries,
   * the reducer puts back the initial value at the relative path.
   */
  lemma ResetThroughChange(model: string, initial: Value, state: Value, m: string, v: Value, rel: seq<string>)
    requires StartsWith(m, model)
    requires |LegacyCastPath(model)| > 0 && |rel| > 0 && LegacyCastPath(m) == LegacyCastPath(model) + rel
    ensures var a := ModelActions.ChangeAction(m, v, ModelActions.ChangeOptions(None, None, None, Some(ResetChange)));
      var s := if state == Undef then InitialOrDefault(initial) else state;
      var init := InitialOrDefault(initial);
      Reduce(model, initial, state, a)
        == if Dropped(s, rel) then s else SetIn(Holder(s, rel[0]), rel, GetIn(Holder(init, rel[0]), rel))
  {
    var a := ModelActions.ChangeAction(m, v, ModelActions.ChangeOptions(None, None, None, Some(ResetChange)));
    NestedReset(model, initial, state, a, rel);
  }

  /** The value a reset reads from the initial super state is the initial value at the relative path. */
  lemma ResetSource(model: string, init: Value, rel: seq<string>)
    requires |LegacyCastPath(model)| > 0 && |rel| > 0
    ensures GetIn(SuperState(model, init), LegacyCastPath(model) + rel) == GetIn(Holder(init, rel[0]), rel)
  {
    var mp := LegacyCastPath(model);
    SuperStateFresh(model, init);
    FreshObjWritable(mp);
    GetSetSame(Obj(map[]), mp, init);
    GetInAppend(SuperState(model, init), mp, rel);
    if !IsContainer(init) {
      GetInOffData(init, rel);
      GetInEmpty(rel);
    }
  }

  /** From the initial state, a reset-method change is a no-op at a writable path. */
  lemma ResetFromInitial(model: string, initial: Value, a: Action, rel: seq<string>)
    requires a.Change? && a.changeMethod == ResetChange && StartsWith(a.model, model)
    requires |LegacyCastPath(model)| > 0 && |rel| > 0 && LegacyCastPath(a.model) == LegacyCastPath(model) + rel
    requires IsContainer(InitialOrDefault(initial)) && Writable(InitialOrDefault(initial), rel)
    requires HasPath(InitialOrDefault(initial), rel)
    ensures Reduce(model, initial, Undef, a) == InitialOrDefault(initial)
  {
    var init := InitialOrDefault(initial);
    NestedReset(model, initial, Undef, a, rel);
    PresentNotBlocked(init, rel);
    SetExisting(init, rel);
  }

  /** A change whose write is dropped leaves the state as it was. */
  lemma NestedChangeDropped(model: string, initial: Value, state: Value, a: Action, rel: seq<string>)
    requires a.Change? && a.changeMethod == PlainChange && StartsWith(a.model, model) && a.model != model
    requires |LegacyCastPath(model)| > 0 && |rel| > 0 && LegacyCastPath(a.model) == LegacyCastPath(model) + rel
    requires var s := if state == Undef then InitialOrDefault(initial) else state;
      Dropped(s, rel)
    ensures var s := if state == Undef then InitialOrDefault(initial) else state;
      Reduce(model, initial, state, a) == s
  {
    NestedChange(model, initial, state, a, rel);
  }

  /**
   * The multi-value model "p[]" that a checkbox group dispatches names the same place as `p`,
   * so a change to it is the change to `p`. Excluded are the two kinds of strings lodash 3 reads
   * differently with and without the suffix: a lone key holding ']' (whole as a key, split as a
   * path) and a string of separators only (an empty path).
   */
  lemma MultiChangeIsChange(model: string, initial: Value, state: Value, a: Action)
    requires a.Change? && (model == "" || StartsWith(a.model, model))
    requires |LegacyToPath(a.model)| > 0 && (SimpleKey(a.model) || '.' in a.model || '[' in a.model)
    ensures var multi := Change(a.model + "[]", a.value, a.multi, a.silent, a.removeKeys, a.changeMethod);
      Reduce(model, initial, state, multi) == Reduce(model, initial, state, a)
  {
    var multi := Change(a.model + "[]", a.value, a.multi, a.silent, a.removeKeys, a.changeMethod);
    MultiPathFacts(a.model, model);
    if a.changeMethod == PlainChange && a.model == model {
      MultiOwnChange(model, initial, state, multi);
    } else {
      SamePlace(model, initial, state, multi, a);
    }
  }

  /** What the suffix "[]" keeps: the lodash 3 path, and being below the bound model. */
  lemma MultiPathFacts(p: string, model: string)
    requires |LegacyToPath(p)| > 0 && (SimpleKey(p) || '.' in p || '[' in p)
    ensures LegacyCastPath(p + "[]") == LegacyCastPath(p) && |LegacyCastPath(p)| > 0
    ensures p + "[]" != p
    ensures model == "" || StartsWith(p, model) ==> StartsWith(p + "[]", model) && p + "[]" != model
  {
    LegacyMultiPath(p);
    if '.' !in p && '[' !in p {
      LegacyToPathSimple(p);
    }
    if model != "" && StartsWith(p, model) {
      assert (p + "[]")[..|model|] == p[..|model|];
    }
  }

  /** Two changes of the same kind and value that lodash 3 reads as the same path reduce alike. */
  lemma SamePlace(model: string, initial: Value, state: Value, a: Action, b: Action)
    requires a.Change? && b.Change? && a.value == b.value && a.changeMethod == b.changeMethod
    requires model == "" || (StartsWith(a.model, model) && StartsWith(b.model, model))
    requires a.changeMethod == ResetChange || (a.model != model && b.model != model)
    requires LegacyCastPath(a.model) == LegacyCastPath(b.model)
    ensures Reduce(model, initial, state, a) == Reduce(model, initial, state, b)
  {
  }

  /** A plain change of "m[]" under the model `m` is the value itself, read back through the super state. */
  lemma MultiOwnChange(model: string, initial: Value, state: Value, a: Action)
    requires a.Change? && a.changeMethod == PlainChange && a.model != model
    requires model == "" || StartsWith(a.model, model)
    requires LegacyCastPath(a.model) == LegacyCastPath(model) && |LegacyCastPath(model)| > 0
    ensures Reduce(model, initial, state, a) == a.value
  {
    var s := if state == Undef then InitialOrDefault(initial) else state;
    SuperStateOwn(model, s, a.value);
  }

  /** Under the model "test", the checkbox group's change of "test.foo[]" replaces `foo`. */
  lemma MultiValueChangeExample(model: string, initial: Value, a: Action)
    requires model == "test" && initial == Obj(map["foo" := Arr([Num(1)])])
    requires a == Change("test.foo[]", Arr([]), Some(false), Some(false), None, PlainChange)
    ensures Reduce(model, initial, Undef, a) == Obj(map["foo" := Arr([])])
  {
    MultiExampleWrites(model, initial, a);
    PutEmptyFoo(initial, a.value);
  }

  lemma MultiExampleWrites(model: string, initial: Value, a: Action)
    requires model == "test" && a.Change? && a.model == "test.foo[]" && a.changeMethod == PlainChange
    requires initial.Obj?
    ensures Reduce(model, initial, Undef, a) == Put(initial, "foo", a.value)
  {
    var p := "test.foo";
    MultiFooPaths(p, a.model, model);
    MultiWritesThrough(model, initial, a, p);
  }

  lemma PutEmptyFoo(initial: Value, x: Value)
    requires initial == Obj(map["foo" := Arr([Num(1)])]) && x == Arr([])
    ensures Put(initial, "foo", x) == Obj(map["foo" := Arr([])])
  {
    assert initial.fields["foo" := x] == map["foo" := Arr([])];
  }

  lemma MultiFooPaths(p: string, q: string, model: string)
    requires p == "test.foo" && q == "test.foo[]" && model == "test"
    ensures q == p + "[]" && StartsWith(p, model) && p != model && '.' in p
    ensures |LegacyCastPath(model)| > 0 && LegacyCastPath(p) == LegacyCastPath(model) + ["foo"]
    ensures |LegacyToPath(p)| > 0
  {
    FooBelowTest(p, model);
    assert p[4] == '.';
  }

  /** A plain change of "p[]" where `p` is the bound model's path plus `foo` writes `foo` of an object state. */
  lemma MultiWritesThrough(model: string, initial: Value, a: Action, p: string)
    requires a.Change? && a.changeMethod == PlainChange && a.model == p + "[]"
    requires StartsWith(p, model) && p != model && '.' in p && |LegacyToPath(p)| > 0
    requires |LegacyCastPath(model)| > 0 && LegacyCastPath(p) == LegacyCastPath(model) + ["foo"]
    requires initial.Obj?
    ensures Reduce(model, initial, Undef, a) == Put(initial, "foo", a.value)
  {
    var b := Change(p, a.value, a.multi, a.silent, a.removeKeys, a.changeMethod);
    MultiChangeIsChange(model, initial, Undef, b);
    PutFoo(model, initial, b);
  }

  lemma PutFoo(model: string, initial: Value, b: Action)
    requires b.Change? && b.changeMethod == PlainChange && StartsWith(b.model, model) && b.model != model
    requires |LegacyCastPath(model)| > 0 && LegacyCastPath(b.model) == LegacyCastPath(model) + ["foo"]
    requires initial.Obj?
    ensures Reduce(model, initial, Undef, b) == Put(initial, "foo", b.value)
  {
    NestedChange(model, initial, Undef, b, ["foo"]);
    assert Holder(initial, "foo") == initial;
    assert SetIn(initial, ["foo"], b.value) == Put(initial, "foo", b.value);
  }

  lemma PathTestFoo(s: string)
    requires s == "test.foo"
    ensures LegacyCastPath(s) == ["test", "foo"]
  {
    var keys := ["test", "foo"];
    LegacyToPathJoin(keys);
    assert JoinPath(keys) == s;
    assert s[4] == '.';
  }

  lemma StartsTestFoo(s: string, m: string)
    requires s == "test.foo" && m == "test"
    ensures StartsWith(s, m)
  {
    assert s[..4] == m;
  }

  /** A change of "test.foo" under the model "test" replaces `foo` and keeps `one`. */
  lemma ChangeKeepsSiblingExample(model: string, initial: Value, a: Action)
    requires model == "test"
    requires initial == Obj(map["foo" := Str("bar"), "one" := Str("two")])
    requires a == Change("test.foo", Str("new"), Some(false), Some(false), None, PlainChange)
    ensures Reduce(model, initial, Undef, a) == Obj(map["foo" := Str("new"), "one" := Str("two")])
  {
    SiblingExampleWrites(model, initial, a);
    PutFooExample(initial);
  }

  lemma SiblingExampleWrites(model: string, initial: Value, a: Action)
    requires model == "test" && a.Change? && a.model == "test.foo" && a.changeMethod == PlainChange
    requires initial.Obj?
    ensures Reduce(model, initial, Undef, a) == Put(initial, "foo", a.value)
  {
    FooBelowTest(a.model, model);
    PutFoo(model, initial, a);
  }

  lemma FooBelowTest(s: string, m: string)
    requires s == "test.foo" && m == "test"
    ensures StartsWith(s, m) && s != m
    ensures |LegacyCastPath(m)| > 0 && LegacyCastPath(s) == LegacyCastPath(m) + ["foo"]
  {
    PathTestFoo(s);
    StartsTestFoo(s, m);
    LegacyToPathSimple(m);
  }

  lemma PutFooExample(initial: Value)
    requires initial == Obj(map["foo" := Str("bar"), "one" := Str("two")])
    ensures Put(initial, "foo", Str("new")) == Obj(map["foo" := Str("new"), "one" := Str("two")])
  {
    assert initial.fields["foo" := Str("new")] == map["foo" := Str("new"), "one" := Str("two")];
  }

  lemma PathTestFooBar()
    ensures LegacyToPath("test.foo.bar") == ["test", "foo", "bar"]
  {
    var keys := ["test", "foo", "bar"];
    LegacyToPathJoin(keys);
    assert JoinPath(keys) == "test.foo.bar";
  }

  lemma PathTestFooBar1(s: string)
    requires s == "test.foo.bar[1]"
    ensures LegacyCastPath(s) == ["test", "foo", "bar", "1"]
  {
    var keys := ["test", "foo", "bar"];
    LegacyToPathJoin(keys);
    var m := JoinPath(keys);
    assert m == "test.foo.bar";
    LegacyBracketChild(m, "1");
    assert m + "[" + "1" + "]" == s;
    assert s[4] == '.';
  }

  lemma PutOneExample(items: Value)
    requires items == Arr([Num(1), Num(2), Num(3)])
    ensures Put(items, "1", Str("two")) == Arr([Num(1), Str("two"), Num(3)])
  {
    assert IsIndex("1") && ParseIndex("1") == 1;
  }

  lemma PathsFooBarExample(s: string, m: string)
    requires s == "test.foo.bar[1]" && m == "test.foo"
    ensures LegacyCastPath(s) == LegacyCastPath(m) + ["bar", "1"]
  {
    PathTestFoo(m);
    PathTestFooBar1(s);
  }

  lemma StartsFooBarExample()
    ensures StartsWith("test.foo.bar[1]", "test.foo")
  {
    assert "test.foo.bar[1]"[..8] == "test.foo";
  }

  /** Under the model "test", a number at `foo` drops a change of "test.foo.bar". */
  lemma ScalarInTheWayExample(model: string, state: Value, a: Action)
    requires model == "test"
    requires state == Obj(map["foo" := Num(5)])
    requires a == Change("test.foo.bar", Num(1), Some(false), Some(false), None, PlainChange)
    ensures Reduce(model, Undef, state, a) == state
  {
    ScalarBlocksWrite(model, state, a);
  }

  lemma ScalarBlocksWrite(model: string, state: Value, a: Action)
    requires model == "test" && a.Change? && a.model == "test.foo.bar" && a.changeMethod == PlainChange
    requires IsContainer(state) && Get(state, "foo").Num?
    ensures Reduce(model, Undef, state, a) == state
  {
    var rel := ["foo", "bar"];
    FooBarBelowTest(a.model, model);
    ScalarDrops(state, "foo", "bar");
    NestedChangeDropped(model, Undef, state, a, rel);
  }

  lemma FooBarBelowTest(s: string, m: string)
    requires s == "test.foo.bar" && m == "test"
    ensures StartsWith(s, m) && s != m
    ensures |LegacyCastPath(m)| > 0 && LegacyCastPath(s) == LegacyCastPath(m) + ["foo", "bar"]
  {
    CastTestFooBar(s);
    LegacyToPathSimple(m);
    assert s[..4] == m;
  }

  lemma CastTestFooBar(s: string)
    requires s == "test.foo.bar"
    ensures LegacyCastPath(s) == ["test", "foo", "bar"]
  {
    assert s[4] == '.';
    PathTestFooBar();
  }

  /** A write two keys deep is dropped when the first key holds a non-null scalar. */
  lemma ScalarDrops(s: Value, k: string, j: string)
    requires IsContainer(s) && !IsContainer(Get(s, k)) && Get(s, k) != Undef && Get(s, k) != Null
    ensures Dropped(s, [k, j])
  {
    assert [k, j][0] == k;
  }

  /** A change of "test.foo.bar[1]" under the model "test.foo" replaces only element 1 of `bar`. */
  lemma ChangeArrayElementExample(model: string, state: Value, a: Action)
    requires model == "test.foo"
    requires state == Obj(map["bar" := Arr([Num(1), Num(2), Num(3)])])
    requires a == Change("test.foo.bar[1]", Str("two"), Some(false), Some(false), None, PlainChange)
    ensures Reduce(model, Undef, state, a) == Obj(map["bar" := Arr([Num(1), Str("two"), Num(3)])])
  {
    ArrayExampleWrites(model, state, a);
    SetBarOneExample(state);
  }

  lemma ArrayExampleWrites(model: string, state: Value, a: Action)
    requires model == "test.foo" && a.Change? && a.model == "test.foo.bar[1]" && a.changeMethod == PlainChange
    requires IsContainer(state) && IsContainer(Get(state, "bar"))
    ensures Reduce(model, Undef, state, a) == SetIn(state, ["bar", "1"], a.value)
  {
    ArrayExamplePaths(a, model);
    WriteThrough(model, state, a, ["bar", "1"]);
  }

  lemma ArrayExamplePaths(a: Action, model: string)
    requires model == "test.foo" && a.Change? && a.model == "test.foo.bar[1]"
    ensures StartsWith(a.model, model) && a.model != model
    ensures |LegacyCastPath(model)| > 0 && LegacyCastPath(a.model) == LegacyCastPath(model) + ["bar", "1"]
  {
    PathsFooBarExample(a.model, model);
    StartsFooBarExample();
  }

  /** A change into a state whose first key holds a container is the lodash 4 write. */
  lemma WriteThrough(model: string, state: Value, a: Action, rel: seq<string>)
    requires a.Change? && a.changeMethod == PlainChange && StartsWith(a.model, model) && a.model != model
    requires |LegacyCastPath(model)| > 0 && |rel| == 2 && LegacyCastPath(a.model) == LegacyCastPath(model) + rel
    requires IsContainer(state) && IsContainer(Get(state, rel[0]))
    ensures Reduce(model, Undef, state, a) == SetIn(state, rel, a.value)
  {
    NestedChange(model, Undef, state, a, rel);
    assert rel == [rel[0], rel[1]];
    ContainerNotDropped(state, rel[0], rel[1]);
  }

  /** A write two keys deep goes through when the first key holds a container. */
  lemma ContainerNotDropped(s: Value, k: string, j: string)
    requires IsContainer(s) && IsContainer(Get(s, k))
    ensures !Dropped(s, [k, j])
  {
    assert [k, j][0] == k && [k, j][1..] == [j];
    assert !Blocked(Get(s, k), [j]);
    assert Blocked(s, [k, j]) == Blocked(Get(s, k), [j]);
  }

  lemma SetBarOneExample(state: Value)
    requires state == Obj(map["bar" := Arr([Num(1), Num(2), Num(3)])])
    ensures SetIn(state, ["bar", "1"], Str("two")) == Obj(map["bar" := Arr([Num(1), Str("two"), Num(3)])])
  {
    var bar := Get(state, "bar");
    var path := ["bar", "1"];
    assert path[1..] == ["1"];
    assert Holder(bar, "1") == bar;
    assert SetIn(state, path, Str("two")) == Put(state, "bar", SetIn(bar, ["1"], Str("two")));
    assert SetIn(bar, ["1"], Str("two")) == Put(bar, "1", Str("two"));
    PutOneExample(bar);
  }
}
