/** Small vocabulary shared by the other modules. */
module Prelude {

  datatype Option<+T> = None | Some(value: T)

  datatype Result<+T, +E> = Ok(value: T) | Err(error: E)

  predicate Distinct<T(==)>(s: seq<T>) {
    forall i, j :: 0 <= i < j < |s| ==> s[i] != s[j]
  }

  /** The first position of `x` at or after `i`, or the end. */
  function Find<T(==)>(s: seq<T>, x: T, i: nat): (r: nat)
    requires i <= |s|
    ensures i <= r <= |s| && (r < |s| ==> s[r] == x) && forall k :: i <= k < r ==> s[k] != x
    decreases |s| - i
  {
    if i == |s| || s[i] == x then i else Find(s, x, i + 1)
  }

  /** Different keys have different values. */
  ghost predicate Injective<K(!new), V>(m: map<K, V>) {
    forall k, l :: k in m && l in m && m[k] == m[l] ==> k == l
  }

  /** A number in decimal, as `%d` writes it. */
  function Decimal(n: nat): (s: string)
    ensures |s| > 0
  {
    if n < 10 then ["0123456789"[n]] else Decimal(n / 10) + ["0123456789"[n % 10]]
  }

  /** Different numbers are written differently. */
  lemma {:induction false} DecimalInjective(m: nat, n: nat)
    requires Decimal(m) == Decimal(n)
    ensures m == n
  {
    DigitsDiffer();
    var s, t := Decimal(m), Decimal(n);
    assert m >= 10 ==> s[..|s| - 1] == Decimal(m / 10) && s[|s| - 1] == "0123456789"[m % 10];
    assert n >= 10 ==> t[..|t| - 1] == Decimal(n / 10) && t[|t| - 1] == "0123456789"[n % 10];
    if m >= 10 && n >= 10 {
      DecimalInjective(m / 10, n / 10);
    } else {
      assert s[0] == t[0];
    }
  }

  lemma DigitsDiffer()
    ensures forall i, j :: 0 <= i < 10 && 0 <= j < 10 && "0123456789"[i] == "0123456789"[j] ==> i == j
  {
    assert forall i :: 0 <= i < 10 ==> "0123456789"[i] as int == '0' as int + i;
  }

  predicate Increasing(s: seq<nat>) {
    forall i, j :: 0 <= i < j < |s| ==> s[i] < s[j]
  }

  lemma IncreasingAppend(s: seq<nat>, x: nat)
    requires Increasing(s) && forall y :: y in s ==> y < x
    ensures Increasing(s + [x])
  {
    forall i | 0 <= i < |s|
      ensures s[i] < x
    {
      assert s[i] in s;
    }
  }

  /** A strictly increasing sequence is determined by its elements. */
  lemma {:induction false} IncreasingUnique(s: seq<nat>, t: seq<nat>)
    requires Increasing(s) && Increasing(t)
    requires forall x :: x in s <==> x in t
    ensures s == t
  {
    assert |t| > 0 ==> t[0] in t;
    if s == [] {
    } else {
      assert s[0] in t;
      assert t != [] && t[0] in s;
      assert s[0] == t[0];
      forall x
        ensures x in s[1..] <==> x in t[1..]
      {
        assert x in s[1..] <==> x in s && x != s[0];
        assert x in t[1..] <==> x in t && x != t[0];
      }
      IncreasingUnique(s[1..], t[1..]);
    }
  }

  // ---------------------------------------------------------------- the order of strings

  /** The order of strings. */
  predicate Before(a: string, b: string) {
    b != "" && (a == "" || a[0] < b[0] || (a[0] == b[0] && Before(a[1..], b[1..])))
  }

  /** The first difference decides, and a string comes before its continuations. */
  lemma {:induction false} BeforeAt(p: string, c: char, s: string, d: char, t: string)
    requires c < d
    ensures Before(p + [c] + s, p + [d] + t)
    ensures Before(p, p + [c] + s)
    decreases |p|
  {
    var a, b := p + [c] + s, p + [d] + t;
    if p != "" {
      BeforeAt(p[1..], c, s, d, t);
      assert a[1..] == p[1..] + [c] + s && b[1..] == p[1..] + [d] + t;
    }
  }

  lemma {:induction false} BeforeTrans(a: string, b: string, c: string)
    requires Before(a, b) && Before(b, c)
    ensures Before(a, c)
  {
    if a != "" && a[0] == b[0] && b[0] == c[0] { BeforeTrans(a[1..], b[1..], c[1..]); }
  }

  lemma {:induction false} BeforeIrreflexive(a: string)
    ensures !Before(a, a)
  {
    if a != "" { BeforeIrreflexive(a[1..]); }
  }

  lemma {:induction false} BeforeTotal(a: string, b: string)
    ensures a == b || Before(a, b) || Before(b, a)
  {
    if a != "" && b != "" {
      BeforeTotal(a[1..], b[1..]);
      assert a == [a[0]] + a[1..] && b == [b[0]] + b[1..];
    }
  }
}
