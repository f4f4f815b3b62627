/** Small shared vocabulary: optional and failing results, IEEE-style quotients,
    the integer division that std::chrono performs when a duration is divided by a
    container size, hash-table iteration orders, and default-inserting map lookups. */
module Common {

  datatype Option<T> = None | Some(value: T)

  datatype Result<T, E> = Ok(value: T) | Err(error: E)

  /** The outcome of a floating-point division: a finite value, or the infinity/NaN
      that IEEE arithmetic produces when the divisor is zero. */
  datatype FloatQuotient = Finite(value: real) | NonFinite

  function Divide(a: real, b: real): (q: FloatQuotient)
    ensures q.Finite? <==> b != 0.0
    ensures q.Finite? ==> q.value * b == a
  {
    if b == 0.0 then NonFinite else Finite(a / b)
  }

  function Scale(q: FloatQuotient, factor: real): (r: FloatQuotient)
    ensures r.Finite? <==> q.Finite?
    ensures r.Finite? ==> r.value == q.value * factor
  {
    match q
    case Finite(v) => Finite(v * factor)
    case NonFinite => NonFinite
  }

  const TWO_63: int := 0x8000_0000_0000_0000
  const TWO_64: int := 0x1_0000_0000_0000_0000

  /** `d / v.size()` for a std::chrono::microseconds `d`: the common type of
      `long long` and `size_t` is `unsigned long`, so the count is reinterpreted as
      an unsigned 64-bit value, divided, and converted back to a signed count. */
  function ChronoDivBySize(sum: int, n: nat): (q: int)
    requires n > 0
    ensures 0 <= sum < TWO_63 ==> q == sum / n
    ensures -TWO_63 <= q < TWO_63
  {
    var u := sum % TWO_64;
    var d := u / n;
    assert 0 <= d <= u by { DivBelow(u, n); }
    if d >= TWO_63 then d - TWO_64 else d
  }

  lemma DivBelow(u: nat, n: nat)
    requires n > 0
    ensures 0 <= u / n <= u
  {
    var q := u / n;
    assert q * n + u % n == u;
    assert q >= 0;
    assert q * (n - 1) >= 0 by { NonNegProduct(q, n - 1); }
    assert q * n == q + q * (n - 1);
  }

  lemma NonNegProduct(a: nat, b: nat)
    ensures a * b >= 0
  {
  }

  /** `ks` lists every element of `s` exactly once: one order in which a hash
      container may hand out its keys. */
  ghost predicate IsEnumeration<K>(ks: seq<K>, s: set<K>) {
    && NoDuplicates(ks)
    && (forall i :: 0 <= i < |ks| ==> ks[i] in s)
    && (forall k :: k in s ==> k in ks)
  }

  /** No element occurs twice in `ks`. */
  ghost predicate NoDuplicates<K>(ks: seq<K>)
    decreases |ks|
  {
    ks == [] || (ks[|ks| - 1] !in ks[..|ks| - 1] && NoDuplicates(ks[..|ks| - 1]))
  }

  /** Produces some iteration order of `s`; which one is left open, as for an
      unordered container. */
  method Enumerate<K>(s: set<K>) returns (ks: seq<K>)
    ensures IsEnumeration(ks, s)
    ensures |ks| == |s|
  {
    ks := [];
    var rest := s;
    while rest != {}
      invariant rest <= s
      invariant NoDuplicates(ks)
      invariant forall k :: k in ks <==> k in s && k !in rest
      invariant |ks| + |rest| == |s|
      decreases |rest|
    {
      var k :| k in rest;
      ks := ks + [k];
      assert ks[..|ks| - 1] == ks[..|ks| - 1];
      rest := rest - {k};
    }
  }

  /** An iteration order has one position per element. */
  lemma {:induction false} EnumerationSize<K>(ks: seq<K>, s: set<K>)
    requires IsEnumeration(ks, s)
    ensures |ks| == |s|
    decreases |ks|
  {
    if ks == [] {
      assert forall k :: k !in s;
      assert s == {};
    } else {
      var p, x := ks[..|ks| - 1], ks[|ks| - 1];
      assert x in s && x !in p;
      forall k | k in s - {x}
        ensures k in p
      {
        var j :| 0 <= j < |ks| && ks[j] == k;
        assert j < |ks| - 1 && p[j] == k;
      }
      EnumerationSize(p, s - {x});
    }
  }

  /** `m[k]` for a map with integer values, as C++ `operator[]` reads it: 0 when absent. */
  function CountOf<K>(m: map<K, int>, k: K): int {
    if k in m then m[k] else 0
  }

  /** `m[k]++` on a counting map. */
  function Increment<K>(m: map<K, int>, k: K): (r: map<K, int>)
    ensures r.Keys == m.Keys + {k}
    ensures r[k] == CountOf(m, k) + 1
    ensures forall j :: j in m && j != k ==> r[j] == m[j]
  {
    m[k := CountOf(m, k) + 1]
  }

  /** Every count in `m` is at least one. */
  ghost predicate AllPositive<K>(m: map<K, int>) {
    forall k :: k in m ==> m[k] >= 1
  }

  /** `base` is an earlier snapshot of the counting map `cur`: no key has been
      removed and no count has decreased. */
  ghost predicate Below<K>(base: map<K, int>, cur: map<K, int>) {
    forall k :: k in base ==> k in cur && base[k] <= cur[k]
  }

  lemma {:induction false} IncrementKeepsBelow<K>(base: map<K, int>, cur: map<K, int>, k: K)
    requires Below(base, cur)
    ensures Below(base, Increment(cur, k))
  {
    forall j | j in base
      ensures j in Increment(cur, k) && base[j] <= Increment(cur, k)[j]
    {
      assert j in cur;
    }
  }

  function Min(a: int, b: int): int {
    if a < b then a else b
  }

  /** C++ integer division, which truncates toward zero. */
  function CDiv(a: int, b: int): (q: int)
    requires b > 0
    ensures a >= 0 ==> q == a / b
  {
    if a >= 0 then a / b else -((-a) / b)
  }

  /** C++ `%`, whose remainder takes the sign of the dividend. */
  function CRem(a: int, b: int): (r: int)
    requires b > 0
    ensures a == CDiv(a, b) * b + r
    ensures -b < r < b
    ensures a >= 0 ==> 0 <= r
  {
    a - CDiv(a, b) * b
  }

  /** A sequence of integers whose elements are all non-negative. */
  ghost predicate NonNegative(s: seq<int>) {
    forall i :: 0 <= i < |s| ==> s[i] >= 0
  }

  function Sum(s: seq<int>): int {
    SumTo(s, |s|)
  }

  /** The sum of the first `n` elements of `s`. */
  function SumTo(s: seq<int>, n: nat): int
    requires n <= |s|
  {
    if n == 0 then 0 else SumTo(s, n - 1) + s[n - 1]
  }

  /** A sum over the first `n` elements only sees those elements. */
  lemma {:induction false} SumToPrefix(s: seq<int>, t: seq<int>, n: nat)
    requires n <= |s| && n <= |t| && s[..n] == t[..n]
    ensures SumTo(s, n) == SumTo(t, n)
  {
    if n > 0 {
      assert s[..n - 1] == s[..n][..n - 1] && t[..n - 1] == t[..n][..n - 1];
      assert s[n - 1] == s[..n][n - 1] && t[n - 1] == t[..n][n - 1];
      SumToPrefix(s, t, n - 1);
    }
  }

  /** Decimal rendering of an integer, as std::to_string and operator<< give it. */
  function IntToString(i: int): (s: string)
    ensures |s| >= 1
  {
    if i < 0 then "-" + NatToString(-i) else NatToString(i)
  }

  function NatToString(n: nat): (s: string)
    ensures |s| >= 1
    decreases n
  {
    if n < 10 then [DigitChar(n)] else NatToString(n / 10) + [DigitChar(n % 10)]
  }

  function DigitChar(d: nat): char
    requires d < 10
  {
    ['0', '1', '2', '3', '4', '5', '6', '7', '8', '9'][d]
  }
}
