/**
 * Array indices as the string keys JavaScript uses for them. lodash's `isIndex` accepts
 * exactly the canonical decimal spellings ("0", "1", ..., no leading zeros).
 */
module Indices {

  predicate IsDigit(c: char) { '0' <= c <= '9' }

  function DigitValue(c: char): nat
    requires IsDigit(c)
  {
    (c as int - '0' as int) as nat
  }

  function DigitChar(d: nat): (c: char)
    requires d < 10
    ensures IsDigit(c) && DigitValue(c) == d
  {
    ('0' as int + d) as char
  }

  /** A canonical array-index key: non-empty, all digits, no leading zero unless it is "0". */
  predicate IsIndex(k: string)
  {
    && |k| > 0
    && (forall i :: 0 <= i < |k| ==> IsDigit(k[i]))
    && (k[0] == '0' ==> |k| == 1)
  }

  /** Decimal value of a digit string. */
  function ParseIndex(k: string): nat
    requires forall i :: 0 <= i < |k| ==> IsDigit(k[i])
  {
    if |k| == 0 then 0 else ParseIndex(k[..|k| - 1]) * 10 + DigitValue(k[|k| - 1])
  }

  /** The key JavaScript uses for array position `n` (`String(n)`). */
  function NatToKey(n: nat): (k: string)
    ensures |k| > 0
    ensures forall i :: 0 <= i < |k| ==> IsDigit(k[i])
  {
    if n < 10 then [DigitChar(n)] else NatToKey(n / 10) + [DigitChar(n % 10)]
  }

  lemma {:induction false} NatToKeyParses(n: nat)
    ensures IsIndex(NatToKey(n))
    ensures ParseIndex(NatToKey(n)) == n
    decreases n
  {
    var k := NatToKey(n);
    if n >= 10 {
      NatToKeyParses(n / 10);
      var p := NatToKey(n / 10);
      assert k[..|k| - 1] == p;
      assert k[0] == p[0];
    }
  }

  lemma {:induction false} ParseLeadingNonZero(k: string)
    requires |k| > 0 && forall i :: 0 <= i < |k| ==> IsDigit(k[i])
    requires k[0] != '0'
    ensures ParseIndex(k) >= 1
    decreases |k|
  {
    if |k| > 1 {
      var p := k[..|k| - 1];
      assert p[0] == k[0];
      ParseLeadingNonZero(p);
    }
  }

  lemma {:induction false} ParseIndexPrints(k: string)
    requires IsIndex(k)
    ensures NatToKey(ParseIndex(k)) == k
    decreases |k|
  {
    if |k| > 1 {
      var p := k[..|k| - 1];
      assert p[0] == k[0];
      ParseLeadingNonZero(p);
      ParseIndexPrints(p);
      var n := ParseIndex(k);
      assert n / 10 == ParseIndex(p) && n % 10 == DigitValue(k[|k| - 1]);
      assert n >= 10;
      assert k == p + [k[|k| - 1]];
    }
  }

  /** Index keys and positions are in one-to-one correspondence. */
  lemma IndexKeysInjective(a: string, b: string)
    requires IsIndex(a) && IsIndex(b)
    requires ParseIndex(a) == ParseIndex(b)
    ensures a == b
  {
    ParseIndexPrints(a);
    ParseIndexPrints(b);
  }

  lemma NatToKeyInjective(m: nat, n: nat)
    requires NatToKey(m) == NatToKey(n)
    ensures m == n
  {
    NatToKeyParses(m);
    NatToKeyParses(n);
  }
}
