/**
 * JavaScript values as the library sees them: model data, metadata records and whole form
 * states are all plain objects, arrays and scalars. Numbers are integers (floating point and
 * NaN are not modelled); functions are kept out of values and passed as Dafny functions.
 */
module Values {
  import opened Indices

  datatype Value =
    | Undef
    | Null
    | Bool(b: bool)
    | Num(n: int)
    | Str(s: string)
    | Arr(items: seq<Value>)
    | Obj(fields: map<string, Value>)

  /** A metadata record or any other plain object's own properties. */
  type Attrs = map<string, Value>

  /** JavaScript truthiness (`!!v`). */
  predicate Truthy(v: Value)
  {
    match v
    case Undef => false
    case Null => false
    case Bool(b) => b
    case Num(n) => n != 0
    case Str(s) => s != ""
    case Arr(_) => true
    case Obj(_) => true
  }

  /** `!v` */
  function Not(v: Value): (r: Value)
    ensures r.Bool? && (r.b <==> !Truthy(v))
  {
    Bool(!Truthy(v))
  }

  /** `!!v` */
  function BoolOf(v: Value): (r: Value)
    ensures r.Bool? && (r.b <==> Truthy(v))
  {
    Bool(Truthy(v))
  }

  /** lodash `isPlainObject`. */
  predicate IsPlainObject(v: Value) { v.Obj? }

  /** lodash `isObject` restricted to data: arrays and plain objects. */
  predicate IsContainer(v: Value) { v.Arr? || v.Obj? }

  /** The own properties of a plain object, or none (a spread of a non-object adds nothing). */
  function ObjMap(v: Value): Attrs
  {
    if v.Obj? then v.fields else map[]
  }

  /** `v[k]`: a missing property, an out-of-range index or a read from a scalar gives `undefined`. */
  function Get(v: Value, k: string): Value
  {
    match v
    case Obj(m) => if k in m then m[k] else Undef
    case Arr(s) => if IsIndex(k) && ParseIndex(k) < |s| then s[ParseIndex(k)] else Undef
    case _ => Undef
  }

  /** `k in v` / `v.hasOwnProperty(k)`. */
  predicate HasKey(v: Value, k: string)
  {
    match v
    case Obj(m) => k in m
    case Arr(s) => IsIndex(k) && ParseIndex(k) < |s|
    case _ => false
  }

  /** An array's elements keyed by their index strings, as `Object.keys`/`mapValues` see them. */
  function IndexEntries(s: seq<Value>): map<string, Value>
    decreases |s|
  {
    if |s| == 0 then map[] else IndexEntries(s[..|s| - 1])[NatToKey(|s| - 1) := s[|s| - 1]]
  }

  /** The index map holds every element under its index string, and nothing else. */
  lemma IndexEntriesFacts(s: seq<Value>)
    ensures forall i :: 0 <= i < |s| ==> NatToKey(i) in IndexEntries(s) && IndexEntries(s)[NatToKey(i)] == s[i]
    ensures forall k :: k in IndexEntries(s) ==>
      IsIndex(k) && ParseIndex(k) < |s| && IndexEntries(s)[k] == s[ParseIndex(k)]
  {
    IndexEntriesHas(s);
    IndexEntriesOnly(s);
  }

  lemma {:induction false} IndexEntriesHas(s: seq<Value>)
    ensures forall i :: 0 <= i < |s| ==> NatToKey(i) in IndexEntries(s) && IndexEntries(s)[NatToKey(i)] == s[i]
    decreases |s|
  {
    if |s| > 0 {
      var n := |s| - 1;
      var p := s[..n];
      IndexEntriesHas(p);
      var r := IndexEntries(s);
      assert r == IndexEntries(p)[NatToKey(n) := s[n]];
      forall i | 0 <= i < n
        ensures NatToKey(i) in r && r[NatToKey(i)] == s[i]
      {
        if NatToKey(i) == NatToKey(n) {
          NatToKeyInjective(i, n);
        }
        assert p[i] == s[i];
      }
    }
  }

  lemma {:induction false} IndexEntriesOnly(s: seq<Value>)
    ensures forall k :: k in IndexEntries(s) ==>
      IsIndex(k) && ParseIndex(k) < |s| && IndexEntries(s)[k] == s[ParseIndex(k)]
    decreases |s|
  {
    if |s| > 0 {
      var n := |s| - 1;
      var p := s[..n];
      IndexEntriesOnly(p);
      NatToKeyParses(n);
      var r := IndexEntries(s);
      assert r == IndexEntries(p)[NatToKey(n) := s[n]];
      forall k | k in r
        ensures IsIndex(k) && ParseIndex(k) < |s| && r[k] == s[ParseIndex(k)]
      {
        if k != NatToKey(n) {
          assert k in IndexEntries(p);
          assert p[ParseIndex(k)] == s[ParseIndex(k)];
        }
      }
    }
  }

  /** The key/value pairs `mapValues` or `Object.keys` visit: object properties or array slots. */
  function Entries(v: Value): map<string, Value>
  {
    match v
    case Obj(m) => m
    case Arr(s) => IndexEntries(s)
    case _ => map[]
  }

  lemma EntriesAgreeWithGet(v: Value, k: string)
    requires k in Entries(v)
    ensures Entries(v)[k] == Get(v, k) && HasKey(v, k)
  {
    if v.Arr? {
      IndexEntriesFacts(v.items);
    }
  }

  /** A present key is one of the entries `mapValues` visits, with the value a read gives. */
  lemma HasKeyEntries(v: Value, k: string)
    requires HasKey(v, k)
    ensures k in Entries(v) && Entries(v)[k] == Get(v, k)
  {
    if v.Arr? {
      ParseIndexPrints(k);
      IndexEntriesFacts(v.items);
    }
  }

  /** Entries are structurally smaller than their container (recursion over entries terminates). */
  lemma EntriesSmaller(v: Value)
    ensures forall k :: k in Entries(v) ==> Entries(v)[k] < v
  {
    if v.Arr? {
      IndexEntriesFacts(v.items);
    }
  }

  /** `Object.keys(v).length` (a string's characters count as keys). */
  function KeyCount(v: Value): nat
  {
    match v
    case Obj(m) => |m|
    case Arr(s) => |s|
    case Str(s) => |s|
    case _ => 0
  }

  /** lodash `every(v)` with the identity predicate: every entry is truthy. */
  predicate EveryTruthy(v: Value)
  {
    match v
    case Obj(m) => forall k :: k in m ==> Truthy(m[k])
    case Arr(s) => forall i :: 0 <= i < |s| ==> Truthy(s[i])
    case _ => true      // a string's characters are truthy; other scalars have no entries
  }

  /** lodash `every(v, e => !e)`: every entry is falsy. */
  predicate EveryFalsy(v: Value)
  {
    match v
    case Obj(m) => forall k :: k in m ==> !Truthy(m[k])
    case Arr(s) => forall i :: 0 <= i < |s| ==> !Truthy(s[i])
    case Str(s) => s == ""
    case _ => true
  }

  /** `mapValues(m, x => !x)` */
  function NegateAll(m: Attrs): (r: Attrs)
    ensures r.Keys == m.Keys
    ensures forall k :: k in r ==> r[k] == Not(m[k])
  {
    map k | k in m :: Not(m[k])
  }

  /**
   * Validity <-> errors inversion as the reducers perform it: a plain object is negated
   * key by key, anything else is negated as a whole.
   */
  function Invert(v: Value): (r: Value)
    ensures v.Obj? <==> r.Obj?
    ensures v.Obj? ==> r.fields.Keys == v.fields.Keys
  {
    if v.Obj? then Obj(NegateAll(v.fields)) else Not(v)
  }

  /** Inversion is an involution up to truthiness: inverting twice yields the booleans `!!x`. */
  lemma InvertTwice(v: Value)
    ensures Invert(Invert(v)) == (if v.Obj? then Obj(map k | k in v.fields :: BoolOf(v.fields[k])) else BoolOf(v))
  {
  }

  /** An errors value is free of errors exactly when its inversion is everywhere truthy. */
  lemma InvertedErrorsTruthy(e: Value)
    requires e.Obj?
    ensures EveryTruthy(Invert(e)) <==> EveryFalsy(e)
  {
  }
}
