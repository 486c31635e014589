/** Array operations with JavaScript semantics: `filter`, `map` and `splice`. */
module Seqs {

  /** `s.filter(p)`: the elements satisfying `p`, in their original order. */
  function Filter<T>(s: seq<T>, p: T -> bool): (r: seq<T>)
    ensures |r| <= |s|
    ensures forall i :: 0 <= i < |r| ==> p(r[i])
  {
    if |s| == 0 then []
    else if p(s[0]) then [s[0]] + Filter(s[1..], p)
    else Filter(s[1..], p)
  }

  /** Predicates that agree on every element filter alike. */
  lemma {:induction false} FilterAgree<T>(s: seq<T>, p: T -> bool, q: T -> bool)
    requires forall x :: x in s ==> p(x) == q(x)
    ensures Filter(s, p) == Filter(s, q)
  {
    if |s| > 0 {
      FilterAgree(s[1..], p, q);
    }
  }

  /** Filtering keeps exactly the satisfying elements, each with its full multiplicity. */
  lemma {:induction false} FilterMultiset<T>(s: seq<T>, p: T -> bool)
    ensures forall x :: multiset(Filter(s, p))[x] == if p(x) then multiset(s)[x] else 0
  {
    if |s| > 0 {
      FilterMultiset(s[1..], p);
      assert s == [s[0]] + s[1..];
      assert multiset(s) == multiset{s[0]} + multiset(s[1..]);
    }
  }

  lemma FilterMembers<T>(s: seq<T>, p: T -> bool)
    ensures forall x :: x in Filter(s, p) <==> x in s && p(x)
  {
    FilterMultiset(s, p);
    forall x
      ensures x in Filter(s, p) <==> x in s && p(x)
    {
      assert x in Filter(s, p) <==> multiset(Filter(s, p))[x] > 0;
      assert x in s <==> multiset(s)[x] > 0;
    }
  }

  /** Nothing is dropped exactly when every element satisfies the predicate. */
  lemma {:induction false} FilterKeepsAll<T>(s: seq<T>, p: T -> bool)
    ensures |Filter(s, p)| == |s| <==> forall i :: 0 <= i < |s| ==> p(s[i])
  {
    if |s| > 0 {
      FilterKeepsAll(s[1..], p);
      if p(s[0]) {
        assert (forall i :: 0 <= i < |s| ==> p(s[i])) <==> (forall i :: 0 <= i < |s[1..]| ==> p(s[1..][i])) by {
          if forall i :: 0 <= i < |s[1..]| ==> p(s[1..][i]) {
            forall i | 0 <= i < |s| ensures p(s[i]) {
              if i > 0 { assert s[i] == s[1..][i - 1]; }
            }
          }
        }
      }
    }
  }

  /** Filtering a sequence whose every element passes returns it unchanged. */
  lemma {:induction false} FilterAllPass<T>(s: seq<T>, p: T -> bool)
    requires forall i :: 0 <= i < |s| ==> p(s[i])
    ensures Filter(s, p) == s
  {
    if |s| > 0 {
      FilterAllPass(s[1..], p);
      assert s == [s[0]] + s[1..];
    }
  }

  /** Filtering distributes over appending one element. */
  lemma {:induction false} FilterSnoc<T>(s: seq<T>, x: T, p: T -> bool)
    ensures Filter(s + [x], p) == Filter(s, p) + (if p(x) then [x] else [])
  {
    if |s| > 0 {
      assert (s + [x])[1..] == s[1..] + [x];
      FilterSnoc(s[1..], x, p);
    } else {
      assert s + [x] == [x];
    }
  }

  /** `r` is `s` with some elements deleted, the rest in their original order. */
  predicate IsSubsequence<T(==)>(r: seq<T>, s: seq<T>)
    decreases |s|
  {
    |r| == 0 || (|s| > 0 && if r[0] == s[0] then IsSubsequence(r[1..], s[1..]) else IsSubsequence(r, s[1..]))
  }

  /** Filtering deletes elements and keeps the order of the rest. */
  lemma {:induction false} FilterIsSubsequence<T>(s: seq<T>, p: T -> bool)
    ensures IsSubsequence(Filter(s, p), s)
    decreases |s|
  {
    if |s| > 0 {
      FilterIsSubsequence(s[1..], p);
      var r := Filter(s, p);
      if p(s[0]) {
        assert r[0] == s[0] && r[1..] == Filter(s[1..], p);
      } else if |r| > 0 {
        assert p(r[0]);
      }
    }
  }

  /** `s.map(f)` */
  function MapSeq<T, U>(s: seq<T>, f: T -> U): (r: seq<U>)
    ensures |r| == |s|
    ensures forall i :: 0 <= i < |s| ==> r[i] == f(s[i])
  {
    seq(|s|, i requires 0 <= i < |s| => f(s[i]))
  }

  /** Where `Array.prototype.splice` starts: negative positions count from the end, then clamp. */
  function SpliceStart(len: nat, start: int): (st: nat)
    ensures st <= len
    ensures 0 <= start <= len ==> st == start
  {
    if start < 0 then (if len + start < 0 then 0 else len + start)
    else if start > len then len
    else start
  }

  /** `splice(s, start, 1)`: delete one element at `start` (nothing when `start` is past the end). */
  function RemoveOne<T>(s: seq<T>, start: int): (r: seq<T>)
  {
    var st := SpliceStart(|s|, start);
    if st < |s| then s[..st] + s[st + 1..] else s
  }

  /** `splice(s, start, 0, x)`: insert `x` before position `start`. */
  function InsertOne<T>(s: seq<T>, start: int, x: T): (r: seq<T>)
  {
    var st := SpliceStart(|s|, start);
    s[..st] + [x] + s[st..]
  }

  lemma RemoveOneInRange<T>(s: seq<T>, i: int)
    requires 0 <= i < |s|
    ensures |RemoveOne(s, i)| == |s| - 1
    ensures forall j :: 0 <= j < i ==> RemoveOne(s, i)[j] == s[j]
    ensures forall j :: i <= j < |s| - 1 ==> RemoveOne(s, i)[j] == s[j + 1]
    ensures multiset(RemoveOne(s, i)) == multiset(s) - multiset{s[i]}
  {
    assert s == s[..i] + [s[i]] + s[i + 1..];
  }

  lemma InsertOneInRange<T>(s: seq<T>, i: int, x: T)
    requires 0 <= i <= |s|
    ensures |InsertOne(s, i, x)| == |s| + 1
    ensures InsertOne(s, i, x)[i] == x
    ensures forall j :: 0 <= j < i ==> InsertOne(s, i, x)[j] == s[j]
    ensures forall j :: i < j <= |s| ==> InsertOne(s, i, x)[j] == s[j - 1]
    ensures multiset(InsertOne(s, i, x)) == multiset(s) + multiset{x}
  {
    assert s == s[..i] + s[i..];
  }

  /** The head and tail of a concatenation with a non-empty front. */
  lemma ConsAppend<T>(a: seq<T>, b: seq<T>)
    requires |a| > 0
    ensures |a + b| == |a| + |b| && (a + b)[0] == a[0] && (a + b)[1..] == a[1..] + b
  {
  }

  /** A prefix one longer is the prefix and the next element. */
  lemma PrefixSnoc<T>(s: seq<T>, i: nat)
    requires i < |s|
    ensures s[..i + 1] == s[..i] + [s[i]]
  {
  }

  /** Two sequences that agree on a non-empty prefix share their head and agree on the tails' prefix. */
  lemma CommonPrefixTail<T>(p: seq<T>, q: seq<T>, i: nat)
    requires 0 < i <= |p| && i <= |q| && p[..i] == q[..i]
    ensures p[0] == q[0] && p[1..][..i - 1] == q[1..][..i - 1]
  {
    assert p[0] == p[..i][0] && q[0] == q[..i][0];
    assert p[1..][..i - 1] == p[..i][1..] && q[1..][..i - 1] == q[..i][1..];
  }
}
