/**
 * The model action creators. The thunk creators read the current value at `model` from the
 * store state and dispatch exactly one CHANGE; here each is a function from the state to that
 * action, or to the error the source would throw.
 */
module ModelActions {
  import opened Wrappers
  import opened Values
  import opened Seqs
  import opened Paths
  import opened Actions
  import Lodash
  import Icepick
  import Utils

  /**
   * The options `change` spreads onto the action that a reader of the action looks at; an
   * absent option takes its default (`silent: false`, `multi` from the model, no `removeKeys`,
   * and a plain change when `method` is not `'reset'`).
   */
  datatype ChangeOptions = ChangeOptions(silent: Option<bool>, multi: Option<bool>,
                                         removeKeys: Option<seq<Value>>, changeMethod: Option<Method>)

  /** `change(model, value, options)` */
  function ChangeAction(model: string, value: Value, options: ChangeOptions): (a: Action)
    ensures a.Change? && a.model == model && a.value == value && TypeOf(a) == Some(CHANGE)
    ensures a.silent == Some(if options.silent.Some? then options.silent.value else false)
    ensures a.multi == Some(if options.multi.Some? then options.multi.value else Utils.IsMulti(model))
    ensures a.removeKeys == options.removeKeys
    ensures MethodOf(a) == if options.changeMethod.Some? then options.changeMethod.value else PlainChange
  {
    var silent := if options.silent.Some? then options.silent.value else false;
    var multi := if options.multi.Some? then options.multi.value else Utils.IsMulti(model);
    var m := if options.changeMethod.Some? then options.changeMethod.value else PlainChange;
    Change(model, Utils.GetValue(value), Some(multi), Some(silent), options.removeKeys, m)
  }

  /** `load(model, values)`: a silent change. */
  function Load(model: string, values: Value): (a: Action)
    ensures a == ChangeAction(model, values, ChangeOptions(Some(true), None, None, None))
    ensures a.silent == Some(true) && a.value == values
  {
    ChangeAction(model, values, ChangeOptions(Some(true), None, None, None))
  }

  /** `reset(model)` */
  function ResetAction(model: string): (a: Action)
    ensures TypeOf(a) == Some(RESET) && a.model == model
  {
    Reset(model)
  }

  /** The record the thunks dispatch: `{type: CHANGE, model, value}`. */
  function Dispatched(model: string, value: Value): (a: Action)
    ensures a.Change? && a.model == model && a.value == value && TypeOf(a) == Some(CHANGE)
  {
    Change(model, value, None, None, None, PlainChange)
  }

  /** `_get(state, model, d)` */
  function Current(state: Value, model: string, d: Value): Value
  {
    Lodash.GetOr(state, CastPath(model), d)
  }

  /** The default `xor` iteratee: `value === item`, identity taken as structural equality. */
  function SameAs(item: Value): (f: Value -> Value)
    ensures forall x :: f(x) == Bool(x == item)
  {
    x => Bool(x == item)
  }

  /** The elements an iteratee does not match. */
  function Unmatched(iteratee: Value -> Value): Value -> bool
  {
    x => !Truthy(iteratee(x))
  }

  /** The new value of `xor`: `item` appended when nothing matches, otherwise the matches removed. */
  function XorItems(items: seq<Value>, item: Value, iteratee: Value -> Value): (r: seq<Value>)
    ensures (forall i :: 0 <= i < |items| ==> !Truthy(iteratee(items[i]))) ==> r == items + [item]
    ensures (exists i :: 0 <= i < |items| && Truthy(iteratee(items[i]))) ==>
      && Seqs.IsSubsequence(r, items)
      && forall x :: multiset(r)[x] == if Truthy(iteratee(x)) then 0 else multiset(items)[x]
  {
    var kept := Filter(items, Unmatched(iteratee));
    FilterKeepsAll(items, Unmatched(iteratee));
    FilterMultiset(items, Unmatched(iteratee));
    Seqs.FilterIsSubsequence(items, Unmatched(iteratee));
    if |kept| == |items| then
      FilterAllPass(items, Unmatched(iteratee));
      items + [item]
    else kept
  }

  /** `xor(model, item, iteratee)` */
  function Xor(state: Value, model: string, item: Value, iteratee: Value -> Value): (r: Result<Action>)
    ensures var c := Current(state, model, Arr([]));
      && (r.Ok? <==> c.Arr?)
      && (r.Ok? ==> r.value == Dispatched(model, Arr(XorItems(c.items, item, iteratee))))
  {
    var c := Current(state, model, Arr([]));
    if c.Arr? then Ok(Dispatched(model, Arr(XorItems(c.items, item, iteratee)))) else Err(NotAnArray)
  }

  /** Toggling an absent item in and out again gives the sequence back. */
  lemma XorTwice(items: seq<Value>, item: Value)
    requires item !in items
    ensures XorItems(items, item, SameAs(item)) == items + [item]
    ensures XorItems(XorItems(items, item, SameAs(item)), item, SameAs(item)) == items
  {
    var p := Unmatched(SameAs(item));
    var once := items + [item];
    assert once[|items|] == item;
    FilterSnoc(items, item, p);
    forall i | 0 <= i < |items|
      ensures p(items[i])
    {
      assert SameAs(item)(items[i]) == Bool(false);
    }
    FilterAllPass(items, p);
    assert SameAs(item)(item) == Bool(true);
    assert Filter(once, p) == items;
    FilterKeepsAll(once, p);
  }

  /** With the default iteratee, an item present in the sequence is removed entirely. */
  lemma XorRemovesAll(items: seq<Value>, item: Value)
    requires item in items
    ensures item !in XorItems(items, item, SameAs(item))
    ensures forall x :: x != item ==> multiset(XorItems(items, item, SameAs(item)))[x] == multiset(items)[x]
  {
    var i :| 0 <= i < |items| && items[i] == item;
    assert Truthy(SameAs(item)(items[i]));
  }

  /** `[...(collection || [])]`: a falsy value spreads to nothing, a string to its characters. */
  function Spread(c: Value): (r: Result<seq<Value>>)
    ensures !Truthy(c) ==> r == Ok([])
    ensures c.Arr? ==> r == Ok(c.items)
    ensures c.Str? ==> r.Ok? && |r.value| == |c.s|
    ensures r.Err? <==> Truthy(c) && !c.Arr? && !c.Str?
  {
    if !Truthy(c) then Ok([])
    else if c.Arr? then Ok(c.items)
    else if c.Str? then Ok(seq(|c.s|, i requires 0 <= i < |c.s| => Str([c.s[i]])))
    else Err(NotAnArray)
  }

  /** `push(model, item)`: the collection with `item` (`null` when absent) appended. */
  function Push(state: Value, model: string, item: Value): (r: Result<Action>)
    ensures var base := Spread(Lodash.GetIn(state, CastPath(model)));
      && (r.Ok? <==> base.Ok?)
      && (r.Ok? ==> r.value.Change? && r.value.model == model && r.value.value.Arr?)
      && (r.Ok? ==> |r.value.value.items| == |base.value| + 1)
      && (r.Ok? ==> r.value.value.items[..|base.value|] == base.value)
      && (r.Ok? ==> r.value.value.items[|base.value|] == (if item == Undef then Null else item))
  {
    match Spread(Lodash.GetIn(state, CastPath(model)))
    case Ok(base) =>
      var v := base + [if item == Undef then Null else item];
      assert v[..|base|] == base;
      Ok(Dispatched(model, Arr(v)))
    case Err(e) => Err(e)
  }

  /** `toggle(model)`: the negation of the current value. */
  function Toggle(state: Value, model: string): (a: Action)
    ensures a.Change? && a.model == model && a.value.Bool?
    ensures a.value.b <==> !Truthy(Lodash.GetIn(state, CastPath(model)))
  {
    Dispatched(model, Not(Lodash.GetIn(state, CastPath(model))))
  }

  /** `filter(model, iteratee)`: the elements the iteratee accepts, in order; no default collection. */
  function FilterAction(state: Value, model: string, iteratee: Value -> Value): (r: Result<Action>)
    ensures var c := Lodash.GetIn(state, CastPath(model));
      && (r.Ok? <==> c.Arr?)
      && (r.Ok? ==> r.value.Change? && r.value.model == model && r.value.value.Arr?)
      && (r.Ok? ==> forall i :: 0 <= i < |r.value.value.items| ==> Truthy(iteratee(r.value.value.items[i])))
      && (r.Ok? ==> forall x :: multiset(r.value.value.items)[x] == if Truthy(iteratee(x)) then multiset(c.items)[x] else 0)
      && (r.Ok? ==> IsSubsequence(r.value.value.items, c.items))
  {
    var c := Lodash.GetIn(state, CastPath(model));
    if c.Arr? then
      FilterMultiset(c.items, x => Truthy(iteratee(x)));
      FilterIsSubsequence(c.items, x => Truthy(iteratee(x)));
      Ok(Dispatched(model, Arr(Filter(c.items, x => Truthy(iteratee(x))))))
    else Err(NotAnArray)
  }

  /** `map(model, iteratee)`: the iteratee applied element-wise. */
  function MapAction(state: Value, model: string, iteratee: Value -> Value): (r: Result<Action>)
    ensures var c := Current(state, model, Arr([]));
      && (r.Ok? <==> c.Arr?)
      && (r.Ok? ==> r.value.Change? && r.value.model == model && r.value.value.Arr?)
      && (r.Ok? ==> |r.value.value.items| == |c.items|)
      && (r.Ok? ==> forall i :: 0 <= i < |c.items| ==> r.value.value.items[i] == iteratee(c.items[i]))
  {
    var c := Current(state, model, Arr([]));
    if c.Arr? then Ok(Dispatched(model, Arr(MapSeq(c.items, iteratee)))) else Err(NotAnArray)
  }

  /** `remove(model, index)`: the element at `index` spliced out, with `removeKeys: [index]`. */
  function Remove(state: Value, model: string, index: int): (r: Result<Action>)
    ensures var c := Current(state, model, Arr([]));
      && (r.Ok? <==> c.Arr?)
      && (r.Ok? ==> r.value.Change? && r.value.model == model && r.value.value.Arr?)
      && (r.Ok? ==> r.value.removeKeys == Some([Num(index)]))
      && (r.Ok? && 0 <= index < |c.items| ==>
            && |r.value.value.items| == |c.items| - 1
            && (forall j :: 0 <= j < index ==> r.value.value.items[j] == c.items[j])
            && (forall j :: index <= j < |c.items| - 1 ==> r.value.value.items[j] == c.items[j + 1])
            && multiset(r.value.value.items) == multiset(c.items) - multiset{c.items[index]})
  {
    var c := Current(state, model, Arr([]));
    if c.Arr? then
      if 0 <= index < |c.items| then RemoveOneInRange(c.items, index); RemovedAt(model, c.items, index)
      else RemovedAt(model, c.items, index)
    else Err(NotAnArray)
  }

  function RemovedAt(model: string, items: seq<Value>, index: int): Result<Action>
  {
    Ok(Change(model, Arr(RemoveOne(items, index)), None, None, Some([Num(index)]), PlainChange))
  }

  /** The new value of `move`: the element at `from` taken out and put back in at `to`. */
  function MoveItems(items: seq<Value>, from: int, to: int): (r: seq<Value>)
  {
    var item := if 0 <= from < |items| then items[from] else Undef;
    InsertOne(RemoveOne(items, from), to, item)
  }

  /** `move(model, from, to)`: fails when either index is at or past the end. */
  function Move(state: Value, model: string, from: int, to: int): (r: Result<Action>)
    ensures var c := Current(state, model, Arr([]));
      && (!c.Arr? ==> r == Err(NotAnArray))
      && (c.Arr? ==> (r == Err(InvalidBounds) <==> from >= |c.items| || to >= |c.items|))
      && (r.Ok? ==> r.value == Dispatched(model, Arr(MoveItems(c.items, from, to))))
  {
    var c := Current(state, model, Arr([]));
    if !c.Arr? then Err(NotAnArray)
    else if from >= |c.items| || to >= |c.items| then Err(InvalidBounds)
    else Ok(Dispatched(model, Arr(MoveItems(c.items, from, to))))
  }

  /** Moving within bounds keeps the length and the elements, and lands the moved one at `to`. */
  lemma MovePermutes(items: seq<Value>, from: int, to: int)
    requires 0 <= from < |items| && 0 <= to < |items|
    ensures |MoveItems(items, from, to)| == |items|
    ensures multiset(MoveItems(items, from, to)) == multiset(items)
    ensures MoveItems(items, from, to)[to] == items[from]
  {
    var removed := RemoveOne(items, from);
    RemoveOneInRange(items, from);
    InsertOneInRange(removed, to, items[from]);
    assert items[from] in multiset(items);
  }

  /** Moving an element to where it already is changes nothing. */
  lemma MoveInPlace(items: seq<Value>, i: int)
    requires 0 <= i < |items|
    ensures MoveItems(items, i, i) == items
  {
    assert items == items[..i] + [items[i]] + items[i + 1..];
  }

  /**
   * `merge(model, values)`: icepick's deep merge of `values` into the current object (default
   * `{}`): a plain object merges into the plain object under the same key, anything else
   * replaces it, and a key the values lack keeps its current value.
   */
  function MergeAction(state: Value, model: string, values: Value): (r: Action)
    ensures var c := Current(state, model, Obj(map[]));
      && r.Change? && r.model == model
      && (c.Obj? && values.Obj? ==> r.value.Obj?)
      && (c.Obj? && values.Obj? ==> forall k ::
            Get(r.value, k) == (if k in values.fields then Icepick.MergeValue(Get(c, k), values.fields[k]) else Get(c, k)))
      && (c.Obj? && values.Obj? ==> forall k :: k in r.value.fields <==>
            k in c.fields || (k in values.fields && values.fields[k] != Undef))
      && (!(c.Obj? && values.Obj?) ==> r.value == c)
  {
    var c := Current(state, model, Obj(map[]));
    Icepick.MergeEverywhere(c, values);
    Dispatched(model, Icepick.Merge(c, values))
  }

  /**
   * The merged value keeps the current one: merging the current object into it again, or the
   * same values again, changes nothing.
   */
  lemma MergeActionAbsorbs(state: Value, model: string, values: Value)
    ensures var c := Current(state, model, Obj(map[]));
      var v := MergeAction(state, model, values).value;
      Icepick.Merge(c, v) == v && Icepick.Merge(v, values) == v
  {
    var c := Current(state, model, Obj(map[]));
    Icepick.MergeAbsorbs(c, values);
    Icepick.MergeIdempotent(c, values);
  }

  /** The `props` argument of `omit`: one key or a list of keys. */
  datatype Props = One(key: string) | Many(keys: seq<string>)

  /** `typeof props === 'string' ? [props] : props` */
  function PropsArray(props: Props): (r: seq<string>)
    ensures props.One? ==> r == [props.key]
    ensures props.Many? ==> r == props.keys
  {
    match props
    case One(k) => [k]
    case Many(ks) => ks
  }

  /** `keys.reduce((acc, k) => dissoc(acc, k), v)` */
  function DissocAll(v: Value, keys: seq<string>): (r: Value)
    ensures !v.Obj? ==> r == v
    ensures v.Obj? ==> r.Obj? && r.fields.Keys == v.fields.Keys - set k | k in keys
    ensures v.Obj? ==> forall k :: k in r.fields ==> r.fields[k] == v.fields[k]
    decreases |keys|
  {
    if |keys| == 0 then v else DissocAll(Icepick.Dissoc(v, keys[0]), keys[1..])
  }

  /** `omit(model, props)`: the current object (default `{}`) without the listed keys. */
  function Omit(state: Value, model: string, props: Props): (r: Action)
    ensures var c := Current(state, model, Obj(map[]));
      && r.Change? && r.model == model
      && r.removeKeys == Some(MapSeq(PropsArray(props), (k: string) => Str(k)))
      && (c.Obj? ==> r.value.Obj? && r.value.fields.Keys == c.fields.Keys - set k | k in PropsArray(props))
      && (c.Obj? ==> forall k :: k in r.value.fields ==> r.value.fields[k] == c.fields[k])
  {
    var keys := PropsArray(props);
    Change(model, DissocAll(Current(state, model, Obj(map[])), keys), None, None,
      Some(MapSeq(keys, (k: string) => Str(k))), PlainChange)
  }
}
