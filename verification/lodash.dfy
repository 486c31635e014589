/**
 * Path reads and writes with the semantics of lodash `get` and `set`.
 *
 * `set` mutates its argument in place and returns it; here it returns the updated value.
 * Writing creates missing (or scalar) intermediates, as an array when the next key is an
 * index and as an object otherwise; `set` on a scalar root or with an empty path changes
 * nothing. A non-index key on an array would become an expando property, which a `Value`
 * cannot carry, so such a write leaves the array unchanged.
 */
module Lodash {
  import opened Indices
  import opened Values
  import Seqs

  /** `get(v, path)`: `undefined` as soon as the path leaves the data. */
  function GetIn(v: Value, path: seq<string>): Value
    decreases |path|
  {
    if |path| == 0 then v else GetIn(Get(v, path[0]), path[1..])
  }

  /** `get(v, path, d)`: the default replaces an `undefined` result (and only that). */
  function GetOr(v: Value, path: seq<string>, d: Value): (r: Value)
    ensures GetIn(v, path) != Undef ==> r == GetIn(v, path)
    ensures GetIn(v, path) == Undef ==> r == d
  {
    var r := GetIn(v, path);
    if r == Undef then d else r
  }

  /** `v[k] = x` on a container; arrays grow with `undefined` holes. */
  function Put(v: Value, k: string, x: Value): Value
  {
    match v
    case Obj(m) => Obj(m[k := x])
    case Arr(s) =>
      if IsIndex(k) then
        var i := ParseIndex(k);
        if i < |s| then Arr(s[i := x]) else Arr(s + seq(i - |s|, _ => Undef) + [x])
      else v
    case _ => v
  }

  /** The container a write must go through: the existing one, or a fresh one shaped by the next key. */
  function Holder(c: Value, next: string): (r: Value)
    ensures IsContainer(r)
  {
    if IsContainer(c) then c else if IsIndex(next) then Arr([]) else Obj(map[])
  }

  /** `set(v, path, x)` */
  function SetIn(v: Value, path: seq<string>, x: Value): Value
    decreases |path|
  {
    if |path| == 0 || !IsContainer(v) then v
    else if |path| == 1 then Put(v, path[0], x)
    else Put(v, path[0], SetIn(Holder(Get(v, path[0]), path[1]), path[1..], x))
  }

  /** Every write along `path` lands: no array on the way is addressed by a non-index key. */
  predicate Writable(v: Value, path: seq<string>)
    decreases |path|
  {
    |path| == 0 ||
    (&& IsContainer(v)
     && (v.Arr? ==> IsIndex(path[0]))
     && (|path| > 1 ==> Writable(Holder(Get(v, path[0]), path[1]), path[1..])))
  }

  lemma GetPutSame(v: Value, k: string, x: Value)
    requires IsContainer(v) && (v.Arr? ==> IsIndex(k))
    ensures Get(Put(v, k, x), k) == x
  {
  }

  lemma GetPutOther(v: Value, k: string, k': string, x: Value)
    requires k != k'
    ensures Get(Put(v, k, x), k') == Get(v, k')
  {
    if v.Arr? && IsIndex(k) && IsIndex(k') && ParseIndex(k) == ParseIndex(k') {
      IndexKeysInjective(k, k');
    }
  }

  /** A write at one key leaves every other key where it was. */
  lemma PutOthers(v: Value, k: string, x: Value)
    ensures forall k' :: k' != k ==> Get(Put(v, k, x), k') == Get(v, k')
  {
    forall k' | k' != k
      ensures Get(Put(v, k, x), k') == Get(v, k')
    {
      GetPutOther(v, k, k', x);
    }
  }

  lemma PutKeepsKind(v: Value, k: string, x: Value)
    ensures v.Obj? ==> Put(v, k, x).Obj?
    ensures v.Arr? ==> Put(v, k, x).Arr?
  {
  }

  lemma PutTwice(v: Value, k: string, x: Value)
    ensures Put(Put(v, k, x), k, x) == Put(v, k, x)
  {
  }

  lemma SetInKeepsKind(v: Value, path: seq<string>, x: Value)
    ensures v.Obj? ==> SetIn(v, path, x).Obj?
    ensures v.Arr? ==> SetIn(v, path, x).Arr?
  {
  }

  lemma {:induction false} GetInOffData(v: Value, path: seq<string>)
    requires |path| > 0 && !IsContainer(v)
    ensures GetIn(v, path) == Undef
    decreases |path|
  {
    if |path| > 1 {
      GetInOffData(Undef, path[1..]);
    }
  }

  lemma GetInEmpty(path: seq<string>)
    requires |path| > 0
    ensures GetIn(Obj(map[]), path) == Undef && GetIn(Arr([]), path) == Undef
  {
    if |path| > 1 {
      GetInOffData(Undef, path[1..]);
    }
  }

  /** A fresh container answers `undefined` below it, like any scalar does. */
  lemma GetInFresh(c: Value, next: string, path: seq<string>)
    requires |path| > 0 && !IsContainer(c)
    ensures GetIn(Holder(c, next), path) == Undef
  {
    GetInOffData(c, path);
    var h := Holder(c, next);
    assert Get(h, path[0]) == Undef;
    if |path| > 1 {
      GetInOffData(Undef, path[1..]);
    }
  }

  lemma {:induction false} GetInAppend(v: Value, p: seq<string>, q: seq<string>)
    ensures GetIn(v, p + q) == GetIn(GetIn(v, p), q)
    decreases |p|
  {
    if |p| > 0 {
      assert (p + q)[1..] == p[1..] + q;
      GetInAppend(Get(v, p[0]), p[1..], q);
    } else {
      assert p + q == q;
    }
  }

  /** `get` after `set` at the same path returns what was written. */
  lemma {:induction false} GetSetSame(v: Value, path: seq<string>, x: Value)
    requires |path| > 0 && Writable(v, path)
    ensures GetIn(SetIn(v, path, x), path) == x
    decreases |path|
  {
    if |path| > 1 {
      var c := Holder(Get(v, path[0]), path[1]);
      GetSetSame(c, path[1..], x);
    }
  }

  /** `set` leaves every path that branches off the written one where it was. */
  lemma {:induction false} GetSetOther(v: Value, p: seq<string>, q: seq<string>, i: nat, x: Value)
    requires i < |p| && i < |q|
    requires p[..i] == q[..i] && p[i] != q[i]
    ensures GetIn(SetIn(v, p, x), q) == GetIn(v, q)
    decreases i
  {
    if !IsContainer(v) {
    } else if i == 0 {
      var y := if |p| == 1 then x else SetIn(Holder(Get(v, p[0]), p[1]), p[1..], x);
      assert SetIn(v, p, x) == Put(v, p[0], y);
      GetPutOther(v, p[0], q[0], y);
    } else {
      Seqs.CommonPrefixTail(p, q, i);
      var c := Holder(Get(v, p[0]), p[1]);
      var y := SetIn(c, p[1..], x);
      assert SetIn(v, p, x) == Put(v, p[0], y);
      if v.Arr? && !IsIndex(p[0]) {
        assert Put(v, p[0], y) == v;
      } else {
        assert Get(Put(v, p[0], y), q[0]) == y;
        assert GetIn(SetIn(v, p, x), q) == GetIn(y, q[1..]);
        GetSetOther(c, p[1..], q[1..], i - 1, x);
        if !IsContainer(Get(v, p[0])) {
          GetInFresh(Get(v, p[0]), p[1], q[1..]);
          GetInOffData(Get(v, p[0]), q[1..]);
        }
        assert GetIn(v, q) == GetIn(Get(v, p[0]), q[1..]);
      }
    }
  }

  /** Writing the same value twice at the same path is the same as writing it once. */
  lemma {:induction false} SetTwice(v: Value, path: seq<string>, x: Value)
    ensures SetIn(SetIn(v, path, x), path, x) == SetIn(v, path, x)
    decreases |path|
  {
    if |path| > 1 && IsContainer(v) {
      var c := Holder(Get(v, path[0]), path[1]);
      var y := SetIn(c, path[1..], x);
      assert SetIn(v, path, x) == Put(v, path[0], y);
      if v.Arr? && !IsIndex(path[0]) {
        assert Put(v, path[0], y) == v;
      } else {
        SetInKeepsKind(c, path[1..], x);
        PutKeepsKind(v, path[0], y);
        assert Get(Put(v, path[0], y), path[0]) == y;
        assert Holder(y, path[1]) == y;
        SetTwice(c, path[1..], x);
        PutTwice(v, path[0], y);
      }
    } else if |path| == 1 && IsContainer(v) {
      PutKeepsKind(v, path[0], x);
      PutTwice(v, path[0], x);
    }
  }

  lemma {:induction false} WritableAfterSet(v: Value, path: seq<string>, x: Value)
    requires Writable(v, path)
    ensures Writable(SetIn(v, path, x), path)
    decreases |path|
  {
    if |path| > 1 {
      var c := Holder(Get(v, path[0]), path[1]);
      var y := SetIn(c, path[1..], x);
      SetInKeepsKind(c, path[1..], x);
      PutKeepsKind(v, path[0], y);
      assert Get(Put(v, path[0], y), path[0]) == y;
      WritableAfterSet(c, path[1..], x);
    } else if |path| == 1 {
      PutKeepsKind(v, path[0], x);
    }
  }

  /** A fresh container shaped by the first key takes any path. */
  lemma {:induction false} FreshWritable(path: seq<string>)
    requires |path| > 0
    ensures Writable(Holder(Undef, path[0]), path)
    decreases |path|
  {
    if |path| > 1 {
      FreshWritable(path[1..]);
    }
  }

  /**
   * Writing below a path `p` and reading `p` back gives the node at `p` (or a fresh
   * container where a scalar stood) with the rest of the write applied to it.
   */
  lemma {:induction false} GetSetBelow(v: Value, p: seq<string>, q: seq<string>, x: Value)
    requires |p| > 0 && |q| > 0 && Writable(v, p)
    ensures GetIn(SetIn(v, p + q, x), p) == SetIn(Holder(GetIn(v, p), q[0]), q, x)
    decreases |p|
  {
    var pq := p + q;
    assert pq[0] == p[0] && pq[1..] == p[1..] + q;
    if !IsContainer(v) {
    } else if |p| == 1 {
      assert pq[1] == q[0] && pq[1..] == q;
      var y := SetIn(Holder(Get(v, p[0]), q[0]), q, x);
      assert SetIn(v, pq, x) == Put(v, p[0], y);
      GetPutSame(v, p[0], y);
    } else {
      assert pq[1] == p[1];
      var c := Holder(Get(v, p[0]), p[1]);
      var y := SetIn(c, p[1..] + q, x);
      assert SetIn(v, pq, x) == Put(v, p[0], y);
      GetPutSame(v, p[0], y);
      assert GetIn(SetIn(v, pq, x), p) == GetIn(y, p[1..]);
      GetSetBelow(c, p[1..], q, x);
      if !IsContainer(Get(v, p[0])) {
        GetInFresh(Get(v, p[0]), p[1], p[1..]);
        GetInOffData(Get(v, p[0]), p[1..]);
      }
    }
  }

  /** Every node strictly above the end of `path` is a container. */
  predicate Reaches(v: Value, path: seq<string>)
    decreases |path|
  {
    |path| == 0 || (IsContainer(v) && Reaches(Get(v, path[0]), path[1..]))
  }

  /**
   * A non-null scalar stands strictly inside `path`, below containers only: the point where
   * the lodash 3 `set` stops.
   */
  predicate Blocked(v: Value, path: seq<string>)
    decreases |path|
  {
    && |path| > 1
    && IsContainer(v)
    && var c := Get(v, path[0]);
       if IsContainer(c) then Blocked(c, path[1..]) else c != Undef && c != Null
  }

  /**
   * `set(v, path, x)` of lodash 3: missing (`undefined` or `null`) intermediates are created as
   * lodash 4 does, but a non-null scalar on the way ends the walk and the write is dropped.
   */
  function SetInLegacy(v: Value, path: seq<string>, x: Value): Value
    decreases |path|
  {
    if |path| == 0 || !IsContainer(v) then v
    else if |path| == 1 then Put(v, path[0], x)
    else
      var c := Get(v, path[0]);
      if !IsContainer(c) && c != Undef && c != Null then v
      else Put(v, path[0], SetInLegacy(Holder(c, path[1]), path[1..], x))
  }

  /** The two `set`s differ exactly where lodash 3 stops: there the value is left as it was. */
  lemma {:induction false} LegacySet(v: Value, path: seq<string>, x: Value)
    ensures SetInLegacy(v, path, x) == if Blocked(v, path) then v else SetIn(v, path, x)
    decreases |path|
  {
    if |path| > 1 && IsContainer(v) {
      var c := Get(v, path[0]);
      if IsContainer(c) {
        assert Holder(c, path[1]) == c;
        LegacySet(c, path[1..], x);
        if Blocked(c, path[1..]) {
          PutExisting(v, path[0]);
        }
      } else if c == Undef || c == Null {
        LegacySet(Holder(c, path[1]), path[1..], x);
      }
    }
  }

  /** Below a run of containers, whether the write stops depends on the node reached and the rest. */
  lemma {:induction false} BlockedBelow(v: Value, p: seq<string>, q: seq<string>)
    requires |p| > 0 && |q| > 0 && Reaches(v, p)
    ensures var n := GetIn(v, p);
      Blocked(v, p + q) <==> if IsContainer(n) then Blocked(n, q) else n != Undef && n != Null
    decreases |p|
  {
    var pq := p + q;
    assert pq[0] == p[0] && pq[1..] == p[1..] + q;
    if |p| > 1 {
      BlockedBelow(Get(v, p[0]), p[1..], q);
    } else {
      assert pq[1..] == q;
    }
  }

  /** A path whose every node above its end is a container never stops a lodash 3 write. */
  lemma {:induction false} ReachedNotBlocked(v: Value, path: seq<string>)
    requires Reaches(v, path)
    ensures !Blocked(v, path)
    decreases |path|
  {
    if |path| > 1 {
      ReachedNotBlocked(Get(v, path[0]), path[1..]);
    }
  }

  /** After a write, every node above the written one is a container. */
  lemma {:induction false} ReachesAfterSet(v: Value, path: seq<string>, x: Value)
    requires Writable(v, path)
    ensures Reaches(SetIn(v, path, x), path)
    decreases |path|
  {
    if |path| > 1 {
      var c := Holder(Get(v, path[0]), path[1]);
      var y := SetIn(c, path[1..], x);
      SetInKeepsKind(c, path[1..], x);
      assert Get(Put(v, path[0], y), path[0]) == y;
      ReachesAfterSet(c, path[1..], x);
    } else if |path| == 1 {
      PutKeepsKind(v, path[0], x);
    }
  }

  /** A present path holds containers all the way down, so lodash 3 never stops on it. */
  lemma {:induction false} PresentNotBlocked(v: Value, path: seq<string>)
    requires HasPath(v, path)
    ensures !Blocked(v, path)
    decreases |path|
  {
    if |path| > 1 {
      PresentNotBlocked(Get(v, path[0]), path[1..]);
    }
  }

  /** Every key of `path` is present along the way. */
  predicate HasPath(v: Value, path: seq<string>)
    decreases |path|
  {
    |path| == 0 || (HasKey(v, path[0]) && HasPath(Get(v, path[0]), path[1..]))
  }

  /** Writing back the value already at a present path changes nothing. */
  lemma {:induction false} SetExisting(v: Value, path: seq<string>)
    requires HasPath(v, path)
    ensures SetIn(v, path, GetIn(v, path)) == v
    decreases |path|
  {
    if |path| > 0 {
      var k := path[0];
      var c := Get(v, k);
      if |path| == 1 {
        PutExisting(v, k);
      } else {
        assert IsContainer(c);
        assert Holder(c, path[1]) == c;
        SetExisting(c, path[1..]);
        PutExisting(v, k);
      }
    }
  }

  lemma PutExisting(v: Value, k: string)
    requires HasKey(v, k)
    ensures Put(v, k, Get(v, k)) == v
  {
    if v.Arr? {
      assert v.items[ParseIndex(k) := v.items[ParseIndex(k)]] == v.items;
    }
  }
}
