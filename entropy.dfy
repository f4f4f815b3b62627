/** The entropy arithmetic of the interval snapshots: how a counting map is split,
    against the counts stored at the previous interval boundary, into the list of
    all counts that changed and the list of counts of brand-new keys, and how
    Shannon entropy and its normalisation are taken over such a list.

    A key looked up in a counting map is always one of its keys where these
    functions are used; they read it through `CountOf` so that they need no
    precondition.

    The logarithm is a parameter `lg` (the source's `log2`), left uninterpreted:
    what is verified is which counts enter each sum and when a normalisation is
    guarded to zero, not the numeric value of a logarithm. */
module Entropy {
  import opened Common

  /** entropy, novel entropy, normalised entropy, normalised novel entropy */
  datatype Entropies = Entropies(entropy: real, novelEntropy: real, normEntropy: real, normNovelEntropy: real)

  ghost predicate KeysIn<K>(ks: seq<K>, cur: map<K, int>) {
    forall i :: 0 <= i < |ks| ==> ks[i] in cur
  }

  /** What key `k` adds to the list of all counts: its full count when the
      baseline does not know it, the difference when its count changed, else nothing. */
  function DeltaOf<K>(k: K, cur: map<K, int>, base: map<K, int>): seq<int> {
    if k !in base then [CountOf(cur, k)]
    else if CountOf(cur, k) != base[k] then [CountOf(cur, k) - base[k]]
    else []
  }

  /** What key `k` adds to the list of novel counts: its full count when the
      baseline does not know it. */
  function NovelOf<K>(k: K, cur: map<K, int>, base: map<K, int>): seq<int> {
    if k !in base then [CountOf(cur, k)] else []
  }

  /** The per-IP variant: a count (full or difference) enters only when it is
      not zero, so an address never seen as a sender adds nothing to the sender list. */
  function IpDeltaOf<K>(k: K, cur: map<K, int>, base: map<K, int>): seq<int> {
    var c := IpChange(k, cur, base);
    if c != 0 then [c] else []
  }

  /** The count of `k` since the baseline: its full count when the baseline
      does not know it, else the difference. */
  function IpChange<K>(k: K, cur: map<K, int>, base: map<K, int>): int {
    if k !in base then CountOf(cur, k) else CountOf(cur, k) - base[k]
  }

  /** The list of all counts, in the iteration order `ks`. */
  function AllCounts<K>(ks: seq<K>, cur: map<K, int>, base: map<K, int>): seq<int>
    decreases |ks|
  {
    if ks == [] then []
    else AllCounts(ks[..|ks| - 1], cur, base) + DeltaOf(ks[|ks| - 1], cur, base)
  }

  /** The list of novel counts, in the iteration order `ks`. */
  function NovelCounts<K>(ks: seq<K>, cur: map<K, int>, base: map<K, int>): seq<int>
    decreases |ks|
  {
    if ks == [] then []
    else NovelCounts(ks[..|ks| - 1], cur, base) + NovelOf(ks[|ks| - 1], cur, base)
  }

  /** The per-IP list of all counts, in the iteration order `ks`. */
  function IpAllCounts<K>(ks: seq<K>, cur: map<K, int>, base: map<K, int>): seq<int>
    decreases |ks|
  {
    if ks == [] then []
    else IpAllCounts(ks[..|ks| - 1], cur, base) + IpDeltaOf(ks[|ks| - 1], cur, base)
  }

  /** Keys whose count the all-counts list reports. */
  ghost function ChangedKeys<K>(cur: map<K, int>, base: map<K, int>): set<K> {
    set k | k in cur && (k !in base || cur[k] != base[k])
  }

  /** Keys whose count since the baseline is not zero: those the per-IP
      list reports. */
  ghost function ActiveKeys<K>(cur: map<K, int>, base: map<K, int>): set<K> {
    set k | k in cur && IpChange(k, cur, base) != 0
  }

  /** Keys the baseline has never seen. */
  ghost function NewKeys<K>(cur: map<K, int>, base: map<K, int>): set<K> {
    set k | k in cur && k !in base
  }

  /** `c / total` as a double; a zero total is taken as probability 0 (the double
      division would give NaN, which no list built from positive counts meets). */
  function Prob(c: int, total: int): real {
    if total == 0 then 0.0 else c as real / total as real
  }

  function Term(c: int, total: int, lg: real -> real): real {
    var p := Prob(c, total);
    -1.0 * p * lg(p)
  }

  /** -sum p*lg(p) over every element, as calculateEntropies sums it. */
  function Shannon(cs: seq<int>, total: int, lg: real -> real): real {
    ShannonTo(cs, |cs|, total, lg)
  }

  /** The entropy terms of the first `n` elements of `cs`. */
  function ShannonTo(cs: seq<int>, n: nat, total: int, lg: real -> real): real
    requires n <= |cs|
  {
    if n == 0 then 0.0 else ShannonTo(cs, n - 1, total, lg) + Term(cs[n - 1], total, lg)
  }

  /** -sum p*lg(p) over the elements with p > 0, as the per-IP entropies sum it. */
  function ShannonPositive(cs: seq<int>, total: int, lg: real -> real): real {
    ShannonPositiveTo(cs, |cs|, total, lg)
  }

  /** The positive-probability entropy terms of the first `n` elements of `cs`. */
  function ShannonPositiveTo(cs: seq<int>, n: nat, total: int, lg: real -> real): real
    requires n <= |cs|
  {
    if n == 0 then 0.0
    else
      var rest := ShannonPositiveTo(cs, n - 1, total, lg);
      if Prob(cs[n - 1], total) > 0.0 then rest + Term(cs[n - 1], total, lg) else rest
  }

  /** Entropy divided by lg(n), guarded: 0 unless n > 0 and lg(n) > 0. */
  function Normalized(e: real, n: nat, lg: real -> real): (r: real)
    ensures n == 0 ==> r == 0.0
    ensures n == 1 && lg(1.0) <= 0.0 ==> r == 0.0
    ensures r != 0.0 ==> lg(n as real) > 0.0 && r * lg(n as real) == e
    ensures NormalisedBy(e, r, n, lg)
  {
    if n > 0 && lg(n as real) > 0.0 then e / lg(n as real) else 0.0
  }

  /** The guarded division of an entropy by lg(n). */
  method Normalize(e: real, n: nat, lg: real -> real) returns (r: real)
    ensures r == Normalized(e, n, lg)
  {
    r := 0.0;
    if n > 0 && lg(n as real) > 0.0 {
      r := e / lg(n as real);
    }
  }

  /** The four values computed from an all-counts list and a novel-counts list. */
  function EntropiesOf(all: seq<int>, novel: seq<int>, lg: real -> real): Entropies {
    var e := Shannon(all, Sum(all), lg);
    var ne := Shannon(novel, Sum(novel), lg);
    Entropies(e, ne, Normalized(e, |all|, lg), Normalized(ne, |novel|, lg))
  }

  lemma SumAppend(s: seq<int>, x: int)
    ensures Sum(s + [x]) == Sum(s) + x
  {
    assert (s + [x])[..|s|] == s[..|s|];
    SumToPrefix(s + [x], s, |s|);
  }

  /** Sums the entropy terms of `cs` one element at a time. */
  method AccumulateEntropy(cs: seq<int>, total: int, lg: real -> real) returns (e: real)
    ensures e == Shannon(cs, total, lg)
  {
    e := 0.0;
    var i := 0;
    while i < |cs|
      invariant 0 <= i <= |cs|
      invariant e == ShannonTo(cs, i, total, lg)
    {
      e := e + -1.0 * Prob(cs[i], total) * lg(Prob(cs[i], total));
      i := i + 1;
    }
  }

  /** Sums the entropy terms of the elements of `cs` whose probability is positive. */
  method AccumulatePositiveEntropy(cs: seq<int>, total: int, lg: real -> real) returns (e: real)
    ensures e == ShannonPositive(cs, total, lg)
  {
    e := 0.0;
    var i := 0;
    while i < |cs|
      invariant 0 <= i <= |cs|
      invariant e == ShannonPositiveTo(cs, i, total, lg)
    {
      var p := Prob(cs[i], total);
      if p > 0.0 {
        e := e + -1.0 * p * lg(p);
      }
      i := i + 1;
    }
  }

  /** The body of CalculateEntropies for one value `k`: a value missing from the
      baseline joins both lists with its full count, a value whose count changed
      joins the list of all counts with the difference. */
  method CountOne<K>(cur: map<K, int>, base: map<K, int>, ks: seq<K>, i: nat,
                     counts: seq<int>, countTotal: int, novelCounts: seq<int>, novelCountTotal: int)
    returns (counts': seq<int>, countTotal': int, novelCounts': seq<int>, novelCountTotal': int)
    requires i < |ks|
    requires counts == AllCounts(ks[..i], cur, base) && countTotal == Sum(counts)
    requires novelCounts == NovelCounts(ks[..i], cur, base) && novelCountTotal == Sum(novelCounts)
    ensures counts' == AllCounts(ks[..i + 1], cur, base) && countTotal' == Sum(counts')
    ensures novelCounts' == NovelCounts(ks[..i + 1], cur, base) && novelCountTotal' == Sum(novelCounts')
  {
    var k := ks[i];
    var isNew := k !in base;
    var count := if isNew then CountOf(cur, k) else CountOf(cur, k) - base[k];
    assert DeltaOf(k, cur, base) == (if isNew || count != 0 then [count] else []);
    assert NovelOf(k, cur, base) == (if isNew then [count] else []);
    CountStep(ks, i, cur, base);
    counts', countTotal' := PushIf(counts, countTotal, count, isNew || count != 0);
    novelCounts', novelCountTotal' := PushIf(novelCounts, novelCountTotal, count, isNew);
  }

  /** One step of CalculateEntropies: the lists after one more key. */
  lemma CountStep<K>(ks: seq<K>, i: nat, cur: map<K, int>, base: map<K, int>)
    requires i < |ks|
    ensures AllCounts(ks[..i + 1], cur, base) == AllCounts(ks[..i], cur, base) + DeltaOf(ks[i], cur, base)
    ensures NovelCounts(ks[..i + 1], cur, base) == NovelCounts(ks[..i], cur, base) + NovelOf(ks[i], cur, base)
  {
    assert ks[..i + 1][..i] == ks[..i];
  }

  /** calculateEntropies: walks the current counting map in iteration order `ks`,
      splitting it against the baseline `base` into the all-counts and the
      novel-counts lists, then takes the entropy of each and normalises it. */
  method CalculateEntropies<K>(cur: map<K, int>, base: map<K, int>, ks: seq<K>, lg: real -> real)
    returns (r: Entropies)
    ensures r == EntropiesOf(AllCounts(ks, cur, base), NovelCounts(ks, cur, base), lg)
  {
    var counts: seq<int> := [];
    var countTotal := 0;
    var novelCounts: seq<int> := [];
    var novelCountTotal := 0;
    var i := 0;
    while i < |ks|
      invariant 0 <= i <= |ks|
      invariant counts == AllCounts(ks[..i], cur, base) && countTotal == Sum(counts)
      invariant novelCounts == NovelCounts(ks[..i], cur, base) && novelCountTotal == Sum(novelCounts)
    {
      counts, countTotal, novelCounts, novelCountTotal :=
        CountOne(cur, base, ks, i, counts, countTotal, novelCounts, novelCountTotal);
      i := i + 1;
    }
    assert ks[..|ks|] == ks;
    var entropy := AccumulateEntropy(counts, countTotal, lg);
    var novelEntropy := AccumulateEntropy(novelCounts, novelCountTotal, lg);
    var normEntropy := Normalize(entropy, |counts|, lg);
    var normNovelEntropy := Normalize(novelEntropy, |novelCounts|, lg);
    r := Entropies(entropy, novelEntropy, normEntropy, normNovelEntropy);
  }

  /** With an empty baseline (the first interval boundary) every key is novel:
      the two lists coincide. */
  lemma {:induction false} EmptyBaselineAllNovel<K>(ks: seq<K>, cur: map<K, int>)
    requires KeysIn(ks, cur)
    ensures AllCounts(ks, cur, map[]) == NovelCounts(ks, cur, map[])
  {
    if ks != [] {
      EmptyBaselineAllNovel(ks[..|ks| - 1], cur);
    }
  }

  /** The novel list has one entry per key that is new against the baseline. */
  lemma NovelCountsLength<K>(ks: seq<K>, cur: map<K, int>, base: map<K, int>)
    requires IsEnumeration(ks, cur.Keys)
    ensures |NovelCounts(ks, cur, base)| == |NewKeys(cur, base)|
  {
    NovelCountsLengthPrefix(ks, cur, base);
    assert NewIn(ks, base) == NewKeys(cur, base);
  }

  /** The keys of `ks` the baseline does not know. */
  ghost function NewIn<K>(ks: seq<K>, base: map<K, int>): (r: set<K>)
    ensures forall k :: k in r ==> k in ks && k !in base
    ensures forall i :: 0 <= i < |ks| && ks[i] !in base ==> ks[i] in r
    decreases |ks|
  {
    if ks == [] then {}
    else NewIn(ks[..|ks| - 1], base) + (if ks[|ks| - 1] !in base then {ks[|ks| - 1]} else {})
  }

  /** The keys of `ks` that the all-counts list reports. */
  ghost function ChangedIn<K>(ks: seq<K>, cur: map<K, int>, base: map<K, int>): (r: set<K>)
    requires KeysIn(ks, cur)
    ensures forall k :: k in r ==> k in ks && (k !in base || cur[k] != base[k])
    ensures forall i :: 0 <= i < |ks| && (ks[i] !in base || cur[ks[i]] != base[ks[i]]) ==> ks[i] in r
    decreases |ks|
  {
    if ks == [] then {}
    else
      var x := ks[|ks| - 1];
      ChangedIn(ks[..|ks| - 1], cur, base) + (if x !in base || cur[x] != base[x] then {x} else {})
  }

  lemma {:induction false} NovelCountsLengthPrefix<K>(ks: seq<K>, cur: map<K, int>, base: map<K, int>)
    requires KeysIn(ks, cur)
    requires NoDuplicates(ks)
    ensures |NovelCounts(ks, cur, base)| == |NewIn(ks, base)|
  {
    if ks != [] {
      var p, x := ks[..|ks| - 1], ks[|ks| - 1];
      NovelCountsLengthPrefix(p, cur, base);
      assert x !in p;
      assert x !in NewIn(p, base);
    }
  }

  /** The all-counts list has one entry per key whose count changed or is new. */
  lemma AllCountsLength<K>(ks: seq<K>, cur: map<K, int>, base: map<K, int>)
    requires IsEnumeration(ks, cur.Keys)
    ensures |AllCounts(ks, cur, base)| == |ChangedKeys(cur, base)|
  {
    AllCountsLengthPrefix(ks, cur, base);
    assert ChangedIn(ks, cur, base) == ChangedKeys(cur, base);
  }

  lemma {:induction false} AllCountsLengthPrefix<K>(ks: seq<K>, cur: map<K, int>, base: map<K, int>)
    requires KeysIn(ks, cur)
    requires NoDuplicates(ks)
    ensures |AllCounts(ks, cur, base)| == |ChangedIn(ks, cur, base)|
  {
    if ks != [] {
      var p, x := ks[..|ks| - 1], ks[|ks| - 1];
      AllCountsLengthPrefix(p, cur, base);
      assert x !in p;
      assert x !in ChangedIn(p, cur, base);
    }
  }

  /** The per-IP list has one entry per key whose count changed since the
      baseline (or, for a new key, is not zero). */
  lemma IpAllCountsLength<K>(ks: seq<K>, cur: map<K, int>, base: map<K, int>)
    requires IsEnumeration(ks, cur.Keys)
    ensures |IpAllCounts(ks, cur, base)| == |ActiveKeys(cur, base)|
  {
    IpAllCountsLengthPrefix(ks, cur, base);
    assert ActiveIn(ks, cur, base) == ActiveKeys(cur, base);
  }

  /** The keys of `ks` that the per-IP list reports. */
  ghost function ActiveIn<K>(ks: seq<K>, cur: map<K, int>, base: map<K, int>): (r: set<K>)
    ensures forall k :: k in r ==> k in ks && IpChange(k, cur, base) != 0
    ensures forall i :: 0 <= i < |ks| && IpChange(ks[i], cur, base) != 0 ==> ks[i] in r
    decreases |ks|
  {
    if ks == [] then {}
    else
      var x := ks[|ks| - 1];
      ActiveIn(ks[..|ks| - 1], cur, base) + (if IpChange(x, cur, base) != 0 then {x} else {})
  }

  lemma {:induction false} IpAllCountsLengthPrefix<K>(ks: seq<K>, cur: map<K, int>, base: map<K, int>)
    requires NoDuplicates(ks)
    ensures |IpAllCounts(ks, cur, base)| == |ActiveIn(ks, cur, base)|
  {
    if ks != [] {
      var p, x := ks[..|ks| - 1], ks[|ks| - 1];
      IpAllCountsLengthPrefix(p, cur, base);
      assert x !in p;
      assert x !in ActiveIn(p, cur, base);
    }
  }

  /** When the counts only grow from the baseline and are all positive, every
      entry of both lists is positive, so no probability divides by zero. */
  lemma {:induction false} CountsPositive<K>(ks: seq<K>, cur: map<K, int>, base: map<K, int>)
    requires KeysIn(ks, cur)
    requires AllPositive(cur) && Below(base, cur)
    ensures forall i :: 0 <= i < |AllCounts(ks, cur, base)| ==> AllCounts(ks, cur, base)[i] >= 1
    ensures forall i :: 0 <= i < |NovelCounts(ks, cur, base)| ==> NovelCounts(ks, cur, base)[i] >= 1
  {
    if ks != [] {
      CountsPositive(ks[..|ks| - 1], cur, base);
    }
  }

  /** A list of positive counts has a sum at least its length. */
  lemma SumOfPositives(cs: seq<int>)
    requires forall i :: 0 <= i < |cs| ==> cs[i] >= 1
    ensures Sum(cs) >= |cs|
  {
    SumToOfPositives(cs, |cs|);
  }

  lemma {:induction false} SumToOfPositives(cs: seq<int>, n: nat)
    requires n <= |cs|
    requires forall i :: 0 <= i < |cs| ==> cs[i] >= 1
    ensures SumTo(cs, n) >= n
  {
    if n > 0 {
      SumToOfPositives(cs, n - 1);
    }
  }

  /** On positive counts with a positive total, the `p > 0` guard of the per-IP
      sums drops nothing: both ways of summing agree. */
  lemma GuardDropsNothing(cs: seq<int>, total: int, lg: real -> real)
    requires forall i :: 0 <= i < |cs| ==> cs[i] >= 1
    requires total >= 1
    ensures ShannonPositive(cs, total, lg) == Shannon(cs, total, lg)
  {
    GuardDropsNothingTo(cs, |cs|, total, lg);
  }

  lemma {:induction false} GuardDropsNothingTo(cs: seq<int>, n: nat, total: int, lg: real -> real)
    requires n <= |cs|
    requires forall i :: 0 <= i < |cs| ==> cs[i] >= 1
    requires total >= 1
    ensures ShannonPositiveTo(cs, n, total, lg) == ShannonTo(cs, n, total, lg)
  {
    if n > 0 {
      GuardDropsNothingTo(cs, n - 1, total, lg);
      assert Prob(cs[n - 1], total) > 0.0;
    }
  }

  /** The per-IP all-counts list is the generic one with its zero entries removed. */
  lemma {:induction false} IpAllCountsDropZeros<K>(ks: seq<K>, cur: map<K, int>, base: map<K, int>)
    requires KeysIn(ks, cur)
    ensures IpAllCounts(ks, cur, base) == NonZero(AllCounts(ks, cur, base))
  {
    if ks != [] {
      var p, x := ks[..|ks| - 1], ks[|ks| - 1];
      IpAllCountsDropZeros(p, cur, base);
      NonZeroAppend(AllCounts(p, cur, base), DeltaOf(x, cur, base));
    }
  }

  function NonZero(s: seq<int>): (r: seq<int>)
    ensures forall i :: 0 <= i < |r| ==> r[i] != 0
    decreases |s|
  {
    if s == [] then []
    else NonZero(s[..|s| - 1]) + (if s[|s| - 1] != 0 then [s[|s| - 1]] else [])
  }

  lemma {:induction false} NonZeroAppend(a: seq<int>, b: seq<int>)
    requires |b| <= 1
    ensures NonZero(a + b) == NonZero(a) + NonZero(b)
  {
    if b != [] {
      assert (a + b)[..|a + b| - 1] == a;
      assert b[..0] == [];
    } else {
      assert a + b == a;
    }
  }

  /** The counts of `m` in the order `ks`. */
  function ValuesIn<K>(ks: seq<K>, m: map<K, int>): (r: seq<int>)
    ensures |r| == |ks|
    ensures forall i :: 0 <= i < |ks| ==> r[i] == CountOf(m, ks[i])
    decreases |ks|
  {
    if ks == [] then [] else ValuesIn(ks[..|ks| - 1], m) + [CountOf(m, ks[|ks| - 1])]
  }

  /** `norm` is the entropy `e` of a list of `n` counts under the guard of
      the source: `e / lg(n)` when there is a count and lg(n) is positive, and
      0 otherwise (for no count, and for a single count unless lg(1) > 0). */
  ghost predicate NormalisedBy(e: real, norm: real, n: nat, lg: real -> real) {
    && (n > 0 && lg(n as real) > 0.0 ==> norm * lg(n as real) == e)
    && (n == 0 || lg(n as real) <= 0.0 ==> norm == 0.0)
  }

  /** The eight values of calculateLastIntervalIPsEntropy, from the per-address
      sender and receiver lists: the entropies skip zero probabilities, and each
      is normalised by the length of its own list. */
  function IntervalIpEntropies(srcAll: seq<int>, dstAll: seq<int>, srcNovel: seq<int>, dstNovel: seq<int>,
                               lg: real -> real): (r: seq<real>)
    ensures |r| == 8
    ensures NormalisedBy(r[0], r[4], |srcAll|, lg) && NormalisedBy(r[1], r[5], |dstAll|, lg)
    ensures NormalisedBy(r[2], r[6], |srcNovel|, lg) && NormalisedBy(r[3], r[7], |dstNovel|, lg)
    ensures (srcAll == [] ==> r[0] == 0.0) && (dstAll == [] ==> r[1] == 0.0)
    ensures (srcNovel == [] ==> r[2] == 0.0) && (dstNovel == [] ==> r[3] == 0.0)
  {
    var se := ShannonPositive(srcAll, Sum(srcAll), lg);
    var de := ShannonPositive(dstAll, Sum(dstAll), lg);
    var sne := ShannonPositive(srcNovel, Sum(srcNovel), lg);
    var dne := ShannonPositive(dstNovel, Sum(dstNovel), lg);
    [se, de, sne, dne, Normalized(se, |srcAll|, lg), Normalized(de, |dstAll|, lg),
     Normalized(sne, |srcNovel|, lg), Normalized(dne, |dstNovel|, lg)]
  }

  /** The four values of calculateIPsCumEntropy: each address's share of all
      packets counted so far, as sender and as receiver. */
  function CumIpEntropies(sent: seq<int>, received: seq<int>, packetCount: int, lg: real -> real): (r: seq<real>)
    ensures |r| == 4
    ensures NormalisedBy(r[0], r[2], |sent|, lg) && NormalisedBy(r[1], r[3], |received|, lg)
    ensures (sent == [] ==> r[0] == 0.0) && (received == [] ==> r[1] == 0.0)
  {
    var se := ShannonPositive(sent, packetCount, lg);
    var de := ShannonPositive(received, packetCount, lg);
    [se, de, Normalized(se, |sent|, lg), Normalized(de, |received|, lg)]
  }

  /** The per-address loop of calculateLastIntervalIPsEntropy for one direction:
      splits the counts against the baseline and sums both lists. */
  method SplitIpCounts<K>(cur: map<K, int>, base: map<K, int>, ks: seq<K>)
    returns (all: seq<int>, total: int, novel: seq<int>, novelTotal: int)
    ensures all == IpAllCounts(ks, cur, base) && total == Sum(all)
    ensures novel == NovelCounts(ks, cur, base) && novelTotal == Sum(novel)
  {
    all, total, novel, novelTotal := [], 0, [], 0;
    var i := 0;
    while i < |ks|
      invariant 0 <= i <= |ks|
      invariant all == IpAllCounts(ks[..i], cur, base) && total == Sum(all)
      invariant novel == NovelCounts(ks[..i], cur, base) && novelTotal == Sum(novel)
    {
      all, total, novel, novelTotal := SplitOne(cur, base, ks, i, all, total, novel, novelTotal);
      i := i + 1;
    }
    assert ks[..|ks|] == ks;
  }

  /** The body of SplitIpCounts for one address `k`: its count (full, or the
      difference from the baseline) joins the novel list when `k` is new and the
      list of all counts when it is not zero. */
  method SplitOne<K>(cur: map<K, int>, base: map<K, int>, ks: seq<K>, i: nat,
                      all: seq<int>, total: int, novel: seq<int>, novelTotal: int)
    returns (all': seq<int>, total': int, novel': seq<int>, novelTotal': int)
    requires i < |ks|
    requires all == IpAllCounts(ks[..i], cur, base) && total == Sum(all)
    requires novel == NovelCounts(ks[..i], cur, base) && novelTotal == Sum(novel)
    ensures all' == IpAllCounts(ks[..i + 1], cur, base) && total' == Sum(all')
    ensures novel' == NovelCounts(ks[..i + 1], cur, base) && novelTotal' == Sum(novel')
  {
    var k := ks[i];
    var count := if k !in base then CountOf(cur, k) else CountOf(cur, k) - base[k];
    assert IpDeltaOf(k, cur, base) == (if count != 0 then [count] else []);
    assert NovelOf(k, cur, base) == (if k !in base then [count] else []);
    SplitStep(ks, i, cur, base);
    novel', novelTotal' := PushIf(novel, novelTotal, count, k !in base);
    all', total' := PushIf(all, total, count, count != 0);
  }

  /** Appends `x` to a list whose sum is `sum`, when `cond` holds. */
  method PushIf(s: seq<int>, sum: int, x: int, cond: bool) returns (s': seq<int>, sum': int)
    requires sum == Sum(s)
    ensures s' == s + (if cond then [x] else []) && sum' == Sum(s')
  {
    if cond {
      s', sum' := Push(s, sum, x);
    } else {
      s', sum' := s, sum;
      assert s + [] == s;
    }
  }

  /** Appends `x` to a list whose sum is `sum`. */
  method Push(s: seq<int>, sum: int, x: int) returns (s': seq<int>, sum': int)
    requires sum == Sum(s)
    ensures s' == s + [x] && sum' == Sum(s')
  {
    SumAppend(s, x);
    s', sum' := s + [x], sum + x;
  }

  /** One step of SplitIpCounts: the lists after one more key. */
  lemma SplitStep<K>(ks: seq<K>, i: nat, cur: map<K, int>, base: map<K, int>)
    requires i < |ks|
    ensures IpAllCounts(ks[..i + 1], cur, base) == IpAllCounts(ks[..i], cur, base) + IpDeltaOf(ks[i], cur, base)
    ensures NovelCounts(ks[..i + 1], cur, base) == NovelCounts(ks[..i], cur, base) + NovelOf(ks[i], cur, base)
  {
    assert ks[..i + 1][..i] == ks[..i];
  }

  /** Against an unchanged baseline nothing is reported: every list is empty and
      every entropy is zero. */
  lemma {:induction false} UnchangedCountsEmpty<K>(ks: seq<K>, m: map<K, int>, lg: real -> real)
    requires KeysIn(ks, m)
    ensures AllCounts(ks, m, m) == [] && NovelCounts(ks, m, m) == [] && IpAllCounts(ks, m, m) == []
    ensures EntropiesOf(AllCounts(ks, m, m), NovelCounts(ks, m, m), lg) == Entropies(0.0, 0.0, 0.0, 0.0)
  {
    if ks != [] {
      UnchangedCountsEmpty(ks[..|ks| - 1], m, lg);
    }
  }

  /** When no key was removed since the baseline, the number of new keys is the
      growth in the number of keys. */
  lemma NewKeysCount<K>(cur: map<K, int>, base: map<K, int>)
    requires base.Keys <= cur.Keys
    ensures |NewKeys(cur, base)| == |cur| - |base|
  {
    var n := cur.Keys - base.Keys;
    assert NewKeys(cur, base) == n;
    DisjointSplit(cur.Keys, base.Keys);
  }

  lemma DisjointSplit<K>(a: set<K>, b: set<K>)
    requires b <= a
    ensures |a - b| == |a| - |b|
  {
    assert a == (a - b) + b;
    assert (a - b) * b == {};
  }
}
