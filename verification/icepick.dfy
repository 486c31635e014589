/**
 * The icepick operations the library calls, on values instead of frozen objects: they return
 * new values and never share or mutate. `merge` is icepick's deep merge: where the target and
 * the source both hold a plain object under a key the two are merged key by key, and
 * anything else in the source (an array, a scalar, `undefined`) replaces the target's value.
 */
module Icepick {
  import opened Indices
  import opened Values
  import Seqs
  import Lodash

  /** `x || {}` */
  function OrEmpty(x: Value): (r: Value)
    ensures Truthy(x) ==> r == x
    ensures !Truthy(x) ==> r == Obj(map[])
  {
    if Truthy(x) then x else Obj(map[])
  }

  /**
   * `assoc(v, k, x)`: `v` itself when it already holds `x` under `k` (so an `undefined` never
   * adds a key), otherwise a copy of `v` with `k` set; a scalar is copied as an empty object,
   * and a non-index key on an array would be an expando property, so the array is returned as is.
   */
  function Assoc(v: Value, k: string, x: Value): (r: Value)
    ensures Get(v, k) == x ==> r == v
    ensures !(v.Arr? && !IsIndex(k)) ==> Get(r, k) == x
    ensures v.Arr? && !IsIndex(k) ==> r == v
    ensures IsContainer(v) ==> forall k' :: k' != k ==> Get(r, k') == Get(v, k')
    ensures !v.Arr? && Get(v, k) != x ==> r.Obj? && r.fields.Keys == ObjMap(v).Keys + {k}
    ensures v.Arr? ==> r.Arr?
  {
    if Get(v, k) == x then v
    else
      var c := if IsContainer(v) then v else Obj(map[]);
      Lodash.PutOthers(c, k, x);
      Lodash.Put(c, k, x)
  }

  /** `assocIn(v, path, x)`: intermediates that are falsy become `{}`; the path must be non-empty. */
  function AssocIn(v: Value, path: seq<string>, x: Value): Value
    requires |path| > 0
    decreases |path|
  {
    if |path| == 1 then Assoc(v, path[0], x)
    else Assoc(v, path[0], AssocIn(OrEmpty(Get(v, path[0])), path[1..], x))
  }

  /** Every key of `path` can be written where `AssocIn` meets it (no array takes a non-index key). */
  predicate AssocWritable(v: Value, path: seq<string>)
    decreases |path|
  {
    |path| == 0 ||
    ((v.Arr? ==> IsIndex(path[0])) && AssocWritable(OrEmpty(Get(v, path[0])), path[1..]))
  }

  /** `assign(t, s)`: a plain-object copy of `t` with every own property of `s` laid over it. */
  function Assign(t: Value, s: Value): (r: Value)
    ensures r.Obj?
    ensures forall k :: k in r.fields <==> k in ObjMap(t) || k in ObjMap(s)
    ensures forall k :: k in ObjMap(s) ==> r.fields[k] == ObjMap(s)[k]
    ensures forall k :: k in ObjMap(t) && k !in ObjMap(s) ==> r.fields[k] == ObjMap(t)[k]
  {
    Obj(ObjMap(t) + ObjMap(s))
  }

  /**
   * `merge(t, s)`: for every key of the source, a plain object merges into the target's plain
   * object there and any other value replaces it. Like icepick's `assocIfDifferent`, a key
   * whose new value equals the old one is not written, so an `undefined` never adds a key. A
   * target or source that is not a plain object leaves the target as it is.
   */
  function Merge(t: Value, s: Value): (r: Value)
    ensures !(t.Obj? && s.Obj?) ==> r == t
    ensures t.Obj? && s.Obj? ==> r.Obj?
    ensures t.Obj? && s.Obj? ==> forall k :: k in r.fields <==> k in t.fields || (k in s.fields && s.fields[k] != Undef)
    ensures t.Obj? && s.Obj? ==> forall k :: k !in s.fields ==> Get(r, k) == Get(t, k)
    ensures t.Obj? && s.Obj? ==> forall k :: k in s.fields && !(Get(t, k).Obj? && s.fields[k].Obj?) ==> Get(r, k) == s.fields[k]
    decreases s
  {
    if t.Obj? && s.Obj? then
      Obj(t.fields + map k | k in s.fields && (k in t.fields || s.fields[k] != Undef) ::
        if Get(t, k).Obj? && s.fields[k].Obj? then Merge(Get(t, k), s.fields[k]) else s.fields[k])
    else t
  }

  /** What the merge leaves under one key: two plain objects merge, anything else from the source wins. */
  function MergeValue(t: Value, s: Value): (r: Value)
  {
    if t.Obj? && s.Obj? then Merge(t, s) else s
  }

  /** The merge of two plain objects, read key by key. */
  lemma MergeAt(t: Value, s: Value, k: string)
    requires t.Obj? && s.Obj?
    ensures Get(Merge(t, s), k) == if k in s.fields then MergeValue(Get(t, k), s.fields[k]) else Get(t, k)
  {
  }

  /** The merge of two plain objects, read at every key. */
  lemma MergeEverywhere(t: Value, s: Value)
    ensures t.Obj? && s.Obj? ==>
      forall k :: Get(Merge(t, s), k) == (if k in s.fields then MergeValue(Get(t, k), s.fields[k]) else Get(t, k))
  {
    if t.Obj? && s.Obj? {
      forall k ensures Get(Merge(t, s), k) == if k in s.fields then MergeValue(Get(t, k), s.fields[k]) else Get(t, k)
      {
        MergeAt(t, s, k);
      }
    }
  }

  /**
   * The merge of two plain objects is the plain object with the target's keys plus the
   * source's defined ones, holding the merged value under every key of the source.
   */
  lemma MergeIs(t: Value, s: Value, r: Value)
    requires t.Obj? && s.Obj? && r.Obj?
    requires forall k :: k in r.fields <==> k in t.fields || (k in s.fields && s.fields[k] != Undef)
    requires forall k :: k in r.fields ==>
      r.fields[k] == if k in s.fields then MergeValue(Get(t, k), s.fields[k]) else Get(t, k)
    ensures Merge(t, s) == r
  {
    MergeEverywhere(t, s);
    assert forall k :: k in r.fields ==> Get(Merge(t, s), k) == Get(r, k);
    assert Merge(t, s).fields == r.fields;
  }

  /**
   * A source whose keys all exist in the target: the merge keeps the target's keys and holds
   * the merged value at each key of the source.
   */
  lemma MergeWithin(t: Value, s: Value, r: Value)
    requires t.Obj? && s.Obj? && r.Obj? && s.fields.Keys <= t.fields.Keys && r.fields.Keys == t.fields.Keys
    requires forall k :: k in t.fields ==>
      r.fields[k] == if k in s.fields then MergeValue(t.fields[k], s.fields[k]) else t.fields[k]
    ensures Merge(t, s) == r
  {
    MergeIs(t, s, r);
  }

  /** Merging into an empty object copies the source, as long as it holds no `undefined`. */
  lemma MergeOntoEmpty(s: Value)
    requires s.Obj? && forall k :: k in s.fields ==> s.fields[k] != Undef
    ensures Merge(Obj(map[]), s) == s
  {
    MergeIs(Obj(map[]), s, s);
  }

  /**
   * `c` already holds everything merging it over `t` would keep of `t`: where both are plain
   * objects `merge(t, c)` is `c`, and anything else `c` replaces `t` outright.
   */
  ghost predicate Extends(t: Value, c: Value)
  {
    MergeValue(t, c) == c
  }

  /** Every value extends itself. */
  lemma ExtendsSelf(t: Value)
    ensures Extends(t, t)
  {
    MergeSelf(t);
  }

  /**
   * Key by key: a plain object that keeps every key of `t`, adds no `undefined`, and extends
   * `t`'s value under every key extends `t`.
   */
  lemma ExtendsPointwise(t: Value, c: Value)
    requires t.Obj? && c.Obj? && t.fields.Keys <= c.fields.Keys
    requires forall k :: k in c.fields && k !in t.fields ==> c.fields[k] != Undef
    requires forall k :: k in c.fields ==> Extends(Get(t, k), c.fields[k])
    ensures Extends(t, c)
  {
    MergeIs(t, c, c);
  }

  /** Merging a value with itself gives it back. */
  lemma {:induction false} MergeSelf(t: Value)
    ensures Merge(t, t) == t
    decreases t
  {
    if t.Obj? {
      forall k | k in t.fields && t.fields[k].Obj?
        ensures Merge(t.fields[k], t.fields[k]) == t.fields[k]
      {
        MergeSelf(t.fields[k]);
      }
      MergeIs(t, t, t);
    }
  }

  /** A merge result absorbs the target: merging the target into it again changes nothing. */
  lemma {:induction false} MergeAbsorbs(t: Value, p: Value)
    ensures Extends(t, Merge(t, p))
    decreases p
  {
    var m := Merge(t, p);
    if !(t.Obj? && p.Obj?) {
      MergeSelf(t);
    } else {
      forall k | k in m.fields
        ensures MergeValue(Get(t, k), m.fields[k]) == m.fields[k]
      {
        var tk := Get(t, k);
        if k in p.fields && tk.Obj? && p.fields[k].Obj? {
          MergeAbsorbs(tk, p.fields[k]);
        } else if k !in p.fields && tk.Obj? {
          MergeSelf(tk);
        }
      }
      MergeIs(t, m, m);
    }
  }

  /** Merging the same source twice is merging it once. */
  lemma {:induction false} MergeIdempotent(t: Value, s: Value)
    ensures Merge(Merge(t, s), s) == Merge(t, s)
    decreases s
  {
    var m := Merge(t, s);
    if t.Obj? && s.Obj? {
      forall k | k in m.fields && k in s.fields
        ensures m.fields[k] == MergeValue(Get(m, k), s.fields[k])
      {
        if Get(t, k).Obj? && s.fields[k].Obj? {
          MergeIdempotent(Get(t, k), s.fields[k]);
        } else if s.fields[k].Obj? {
          MergeSelf(s.fields[k]);
        }
      }
      MergeIs(m, s, m);
    }
  }

  /**
   * `path` leaves the source's data before it ends: along it both sides hold plain objects
   * until a key the source lacks.
   */
  ghost predicate OnlyInTarget(t: Value, s: Value, path: seq<string>)
    decreases |path|
  {
    |path| > 0 && t.Obj? && s.Obj? &&
    (path[0] !in s.fields || OnlyInTarget(Get(t, path[0]), s.fields[path[0]], path[1..]))
  }

  /** Below a key the source lacks, the merge reads exactly as the target. */
  lemma {:induction false} MergeKeepsTarget(t: Value, s: Value, path: seq<string>)
    requires OnlyInTarget(t, s, path)
    ensures Lodash.GetIn(Merge(t, s), path) == Lodash.GetIn(t, path)
    decreases |path|
  {
    if path[0] in s.fields {
      MergeKeepsTarget(Get(t, path[0]), s.fields[path[0]], path[1..]);
    }
  }

  /** Wherever the source holds something other than a plain object, the merge holds it too. */
  lemma {:induction false} MergeKeepsSource(t: Value, s: Value, path: seq<string>)
    requires t.Obj? && s.Obj? && |path| > 0
    requires Lodash.HasPath(s, path) && !Lodash.GetIn(s, path).Obj? && Lodash.GetIn(s, path) != Undef
    ensures Lodash.GetIn(Merge(t, s), path) == Lodash.GetIn(s, path)
    decreases |path|
  {
    var k := path[0];
    if |path| > 1 {
      var sk := s.fields[k];
      if Get(t, k).Obj? && sk.Obj? {
        MergeKeepsSource(Get(t, k), sk, path[1..]);
      } else {
        assert Get(Merge(t, s), k) == sk;
      }
    }
  }

  /** `dissoc(v, k)`: a copy of the plain object without `k`. */
  function Dissoc(v: Value, k: string): (r: Value)
    ensures !v.Obj? ==> r == v
    ensures v.Obj? ==> r.Obj? && r.fields.Keys == v.fields.Keys - {k}
    ensures v.Obj? ==> forall k' :: k' in r.fields ==> r.fields[k'] == v.fields[k']
  {
    if v.Obj? then Obj(v.fields - {k}) else v
  }

  /** `get` after `assocIn` at the same path returns what was written. */
  lemma {:induction false} AssocInGet(v: Value, path: seq<string>, x: Value)
    requires |path| > 0 && AssocWritable(v, path)
    ensures Lodash.GetIn(AssocIn(v, path, x), path) == x
    decreases |path|
  {
    if |path| > 1 {
      AssocInGet(OrEmpty(Get(v, path[0])), path[1..], x);
    }
  }

  /** `assocIn` leaves every path that branches off the written one where it was. */
  lemma {:induction false} AssocInOther(v: Value, p: seq<string>, q: seq<string>, i: nat, x: Value)
    requires i < |p| && i < |q|
    requires p[..i] == q[..i] && p[i] != q[i]
    ensures Lodash.GetIn(AssocIn(v, p, x), q) == Lodash.GetIn(v, q)
    decreases i
  {
    var y := if |p| == 1 then x else AssocIn(OrEmpty(Get(v, p[0])), p[1..], x);
    assert AssocIn(v, p, x) == Assoc(v, p[0], y);
    if i == 0 {
      if !IsContainer(v) {
        Lodash.GetInOffData(v, q);
        if |q| > 1 {
          Lodash.GetInOffData(Undef, q[1..]);
        }
      }
    } else {
      Seqs.CommonPrefixTail(p, q, i);
      if !(v.Arr? && !IsIndex(p[0])) {
        var c := Get(v, p[0]);
        AssocInOther(OrEmpty(c), p[1..], q[1..], i - 1, x);
        assert Lodash.GetIn(AssocIn(v, p, x), q) == Lodash.GetIn(y, q[1..]);
        if !IsContainer(c) {
          Lodash.GetInEmpty(q[1..]);
          Lodash.GetInOffData(c, q[1..]);
        }
        if !IsContainer(v) {
          Lodash.GetInOffData(v, q);
        }
        assert Lodash.GetIn(v, q) == Lodash.GetIn(c, q[1..]);
      }
    }
  }
}
