/**
 * Model strings and their key paths, under the two lodash versions the library imports.
 * `ToPath` follows lodash 4's `toPath` on dotted and bracketed paths ("a.b[0].c" gives
 * ["a", "b", "0", "c"], "a[]" gives ["a", ""]), and `CastPath` the string handling of
 * lodash 4's `get`/`set`, which use a string without any '.' or '[' as one single key.
 * `LegacyToPath` and `LegacyCastPath` are the same for lodash 3, whose `toPath` keeps only
 * the non-empty runs between separators ("a[]" gives ["a"], "a..b" gives ["a", "b"]).
 */
module Paths {

  predicate StartsWith(s: string, prefix: string)
  {
    |prefix| <= |s| && s[..|prefix|] == prefix
  }

  predicate EndsWith(s: string, suffix: string)
  {
    |suffix| <= |s| && s[|s| - |suffix|..] == suffix
  }

  /** `p` is a segment-wise prefix of `q`. */
  predicate IsPrefix<T(==)>(p: seq<T>, q: seq<T>)
  {
    |p| <= |q| && q[..|p|] == p
  }

  /** A key that needs no quoting: it holds no '.', '[' or ']'. */
  predicate SimpleKey(k: string)
  {
    '.' !in k && '[' !in k && ']' !in k
  }

  /** `s.split(sep)`: always at least one segment. */
  function SplitOn(s: string, sep: char): (r: seq<string>)
    ensures |r| >= 1
  {
    if |s| == 0 then [""]
    else
      var rest := SplitOn(s[1..], sep);
      if s[0] == sep then [""] + rest
      else [[s[0]] + rest[0]] + rest[1..]
  }

  /** Brackets become separators: '[' reads as '.', and ']' is dropped. */
  function Norm(s: string): string
  {
    if |s| == 0 then ""
    else (if s[0] == '[' then "." else if s[0] == ']' then "" else [s[0]]) + Norm(s[1..])
  }

  /** lodash `toPath` on the dotted/bracketed grammar (quoted keys are not modelled). */
  function ToPath(s: string): seq<string>
  {
    if s == "" then []
    else
      var parts := SplitOn(Norm(s), '.');
      if s[0] == '[' then parts[1..] else parts
  }

  /** The path lodash `get`/`set` use for a string argument. */
  function CastPath(s: string): seq<string>
  {
    if '.' !in s && '[' !in s then [s] else ToPath(s)
  }

  /** Dotted model string of a key path (the inverse of `ToPath` on simple keys). */
  function JoinPath(keys: seq<string>): string
    requires |keys| > 0
  {
    if |keys| == 1 then keys[0] else JoinPath(keys[..|keys| - 1]) + "." + keys[|keys| - 1]
  }

  lemma {:induction false} SplitPlain(k: string, sep: char)
    requires sep !in k
    ensures SplitOn(k, sep) == [k]
  {
    if |k| > 0 {
      SplitPlain(k[1..], sep);
      assert k == [k[0]] + k[1..];
    }
  }

  lemma {:induction false} SplitAppend(x: string, sep: char, k: string)
    requires sep !in k
    ensures SplitOn(x + [sep] + k, sep) == SplitOn(x, sep) + [k]
    decreases |x|
  {
    var s := x + [sep] + k;
    if |x| == 0 {
      assert s[1..] == k;
      SplitPlain(k, sep);
    } else {
      assert s[1..] == x[1..] + [sep] + k;
      SplitAppend(x[1..], sep, k);
    }
  }

  lemma {:induction false} NormAppend(a: string, b: string)
    ensures Norm(a + b) == Norm(a) + Norm(b)
    decreases |a|
  {
    if |a| > 0 {
      assert (a + b)[1..] == a[1..] + b;
      NormAppend(a[1..], b);
    } else {
      assert a + b == b;
    }
  }

  lemma {:induction false} NormSimple(k: string)
    requires '[' !in k && ']' !in k
    ensures Norm(k) == k
    decreases |k|
  {
    if |k| > 0 {
      NormSimple(k[1..]);
      assert k == [k[0]] + k[1..];
    }
  }

  /** Appending ".k" to a model string appends the key `k` to its path. */
  lemma ToPathDotChild(m: string, k: string)
    requires m != "" && SimpleKey(k)
    ensures ToPath(m + "." + k) == ToPath(m) + [k]
  {
    var t := "." + k;
    NormDotted(k);
    NormAppend(m, t);
    assert m + "." + k == m + t;
    assert Norm(m + t) == Norm(m) + ['.'] + k;
    SplitAppend(Norm(m), '.', k);
    assert (m + t)[0] == m[0];
  }

  lemma NormDotted(k: string)
    requires SimpleKey(k)
    ensures Norm("." + k) == "." + k
  {
    var t := "." + k;
    assert t[0] == '.' && t[1..] == k;
    NormSimple(k);
  }

  lemma NormBracketed(k: string)
    requires SimpleKey(k)
    ensures Norm("[" + k + "]") == "." + k
  {
    var t := "[" + k + "]";
    assert t[1..] == k + "]";
    NormAppend(k, "]");
    NormSimple(k);
    var u: string := "]";
    assert Norm(u) == "" by { assert u[1..] == ""; }
  }

  /** Appending "[k]" to a model string appends the key `k` to its path. */
  lemma ToPathBracketChild(m: string, k: string)
    requires m != "" && SimpleKey(k)
    ensures ToPath(m + "[" + k + "]") == ToPath(m) + [k]
  {
    var t := "[" + k + "]";
    NormBracketed(k);
    NormAppend(m, t);
    assert m + "[" + k + "]" == m + t;
    assert Norm(m + t) == Norm(m) + ['.'] + k;
    SplitAppend(Norm(m), '.', k);
    assert (m + t)[0] == m[0];
  }

  /** A simple non-empty key is a one-segment path. */
  lemma ToPathSimple(k: string)
    requires k != "" && SimpleKey(k)
    ensures ToPath(k) == [k]
    ensures CastPath(k) == [k]
  {
    NormSimple(k);
    SplitPlain(k, '.');
  }

  /** `ToPath` undoes `JoinPath` whenever the keys need no quoting. */
  lemma {:induction false} ToPathJoin(keys: seq<string>)
    requires |keys| > 0 && keys[0] != ""
    requires forall i :: 0 <= i < |keys| ==> SimpleKey(keys[i])
    ensures ToPath(JoinPath(keys)) == keys
    decreases |keys|
  {
    if |keys| == 1 {
      ToPathSimple(keys[0]);
    } else {
      var init := keys[..|keys| - 1];
      ToPathJoin(init);
      assert JoinPath(init) != "" by { JoinStartsWithFirst(init); }
      ToPathDotChild(JoinPath(init), keys[|keys| - 1]);
    }
  }

  lemma {:induction false} JoinStartsWithFirst(keys: seq<string>)
    requires |keys| > 0
    ensures StartsWith(JoinPath(keys), keys[0])
    decreases |keys|
  {
    if |keys| > 1 {
      var init := keys[..|keys| - 1];
      JoinStartsWithFirst(init);
      var j := JoinPath(init);
      assert (j + "." + keys[|keys| - 1])[..|keys[0]|] == j[..|keys[0]|];
    }
  }

  /** `get`/`set` and `toPath` agree on every non-empty string free of ']'. */
  lemma CastPathAgrees(s: string)
    requires s != "" && ']' !in s
    ensures CastPath(s) == ToPath(s)
  {
    if '.' !in s && '[' !in s {
      ToPathSimple(s);
    }
  }

  /** '.', '[' and ']' all read as '.'. */
  function Seps(s: string): (r: string)
    ensures |r| == |s| && '[' !in r && ']' !in r
  {
    if |s| == 0 then ""
    else (if s[0] == '[' || s[0] == ']' then "." else [s[0]]) + Seps(s[1..])
  }

  /** The non-empty segments, in order. */
  function NonEmpty(parts: seq<string>): (r: seq<string>)
    ensures |r| <= |parts|
    ensures forall i :: 0 <= i < |r| ==> r[i] != "" && r[i] in parts
  {
    if |parts| == 0 then []
    else if parts[0] == "" then NonEmpty(parts[1..])
    else [parts[0]] + NonEmpty(parts[1..])
  }

  /**
   * lodash 3 `toPath` (quoted keys and bracketed decimals are not modelled): the maximal
   * runs of characters other than '.', '[' and ']'.
   */
  function LegacyToPath(s: string): seq<string>
  {
    NonEmpty(SplitOn(Seps(s), '.'))
  }

  /** The path lodash 3 `get`/`set` use for a string argument. */
  function LegacyCastPath(s: string): seq<string>
  {
    if '.' !in s && '[' !in s then [s] else LegacyToPath(s)
  }

  lemma {:induction false} SepsAppend(a: string, b: string)
    ensures Seps(a + b) == Seps(a) + Seps(b)
    decreases |a|
  {
    if |a| > 0 {
      assert (a + b)[1..] == a[1..] + b;
      SepsAppend(a[1..], b);
    } else {
      assert a + b == b;
    }
  }

  lemma {:induction false} SepsSimple(k: string)
    requires SimpleKey(k)
    ensures Seps(k) == k
    decreases |k|
  {
    if |k| > 0 {
      SepsSimple(k[1..]);
      assert k == [k[0]] + k[1..];
    }
  }

  lemma {:induction false} NonEmptyAppend(p: seq<string>, q: seq<string>)
    ensures NonEmpty(p + q) == NonEmpty(p) + NonEmpty(q)
    decreases |p|
  {
    if |p| > 0 {
      assert (p + q)[1..] == p[1..] + q;
      NonEmptyAppend(p[1..], q);
    } else {
      assert p + q == q;
    }
  }

  lemma NonEmptyOne(k: string)
    requires k != ""
    ensures NonEmpty([k]) == [k]
  {
    assert [k][1..] == [];
  }

  /** Under lodash 3, a simple non-empty key is a one-segment path. */
  lemma LegacyToPathSimple(k: string)
    requires k != "" && SimpleKey(k)
    ensures LegacyToPath(k) == [k]
    ensures LegacyCastPath(k) == [k]
  {
    SepsSimple(k);
    SplitPlain(k, '.');
    NonEmptyOne(k);
  }

  /** Under lodash 3, appending ".k" to a model string appends the key `k` to its path. */
  lemma LegacyDotChild(m: string, k: string)
    requires k != "" && SimpleKey(k)
    ensures LegacyToPath(m + "." + k) == LegacyToPath(m) + [k]
  {
    var t := "." + k;
    assert m + "." + k == m + t;
    assert t[0] == '.' && t[1..] == k;
    SepsSimple(k);
    assert Seps(t) == ['.'] + k;
    SepsAppend(m, t);
    var x := Seps(m);
    assert Seps(m + t) == x + ['.'] + k;
    SplitAppend(x, '.', k);
    assert SplitOn(Seps(m + t), '.') == SplitOn(x, '.') + [k];
    NonEmptyAppend(SplitOn(x, '.'), [k]);
    NonEmptyOne(k);
  }

  /** Under lodash 3, appending "[k]" to a model string appends the key `k` to its path. */
  lemma LegacyBracketChild(m: string, k: string)
    requires k != "" && SimpleKey(k)
    ensures LegacyToPath(m + "[" + k + "]") == LegacyToPath(m) + [k]
  {
    var t := "[" + k + "]";
    assert m + "[" + k + "]" == m + t;
    assert Seps(t) == "." + k + "." by {
      assert t == "[" + (k + "]");
      SepsAppend("[", k + "]");
      SepsAppend(k, "]");
      SepsSimple(k);
    }
    SepsAppend(m, t);
    var x := Seps(m);
    assert x + Seps(t) == (x + "." + k) + "." + "";
    SplitAppend(x + "." + k, '.', "");
    SplitAppend(x, '.', k);
    NonEmptyAppend(SplitOn(x, '.') + [k], [""]);
    NonEmptyAppend(SplitOn(x, '.'), [k]);
    NonEmptyOne(k);
    assert NonEmpty([""]) == [] by { assert [""][1..] == []; }
  }

  /** Under lodash 3, the multi-value suffix "[]" adds no key. */
  lemma LegacyMultiPath(m: string)
    ensures LegacyToPath(m + "[]") == LegacyToPath(m)
    ensures LegacyCastPath(m + "[]") == LegacyToPath(m)
  {
    var t := "[]";
    assert Seps(t) == ['.', '.'] by { assert t[1..] == "]" && t[1..][1..] == ""; }
    SepsAppend(m, t);
    var x := Seps(m);
    var y := x + ['.'] + "";
    assert Seps(m + t) == y + ['.'] + "";
    SplitAppend(y, '.', "");
    SplitAppend(x, '.', "");
    assert SplitOn(Seps(m + t), '.') == SplitOn(x, '.') + ["", ""];
    NonEmptyAppend(SplitOn(x, '.'), ["", ""]);
    assert NonEmpty(["", ""]) == [] by { assert ["", ""][1..] == [""] && [""][1..] == []; }
    assert '[' in m + t by { assert (m + t)[|m|] == '['; }
  }

  /** Under lodash 3, `ToPath`-style dotted joins of simple non-empty keys parse back to the keys. */
  lemma {:induction false} LegacyToPathJoin(keys: seq<string>)
    requires |keys| > 0
    requires forall i :: 0 <= i < |keys| ==> keys[i] != "" && SimpleKey(keys[i])
    ensures LegacyToPath(JoinPath(keys)) == keys
    decreases |keys|
  {
    if |keys| == 1 {
      LegacyToPathSimple(keys[0]);
    } else {
      var init := keys[..|keys| - 1];
      LegacyToPathJoin(init);
      LegacyDotChild(JoinPath(init), keys[|keys| - 1]);
    }
  }

  /** The two `toPath`s agree on joins of simple non-empty keys. */
  lemma ToPathVersionsAgree(keys: seq<string>)
    requires |keys| > 0
    requires forall i :: 0 <= i < |keys| ==> keys[i] != "" && SimpleKey(keys[i])
    ensures LegacyToPath(JoinPath(keys)) == ToPath(JoinPath(keys)) == keys
  {
    LegacyToPathJoin(keys);
    ToPathJoin(keys);
  }

  /** lodash 4 keeps the empty key of "a[]", which lodash 3 drops. */
  lemma MultiPathVersionsDiffer(m: string)
    requires m != "" && SimpleKey(m)
    ensures ToPath(m + "[]") == [m, ""]
    ensures LegacyToPath(m + "[]") == [m]
  {
    LegacyMultiPath(m);
    LegacyToPathSimple(m);
    ToPathBracketChild(m, "");
    ToPathSimple(m);
    assert m + "[" + "" + "]" == m + "[]";
  }
}
