/** Value-level helpers shared by every part of the model: an optional value,
    Python's insertion-ordered dict as a sequence of pairs, order-preserving
    filtering, Python slice arithmetic, a stable descending sort and
    zero-padded decimal formatting (`%03d`). */
module Common {

  datatype Option<T> = None | Some(value: T) {
    /** `d.get(key, default)` once the lookup has been done. */
    function GetOr(default: T): T {
      if Some? then value else default
    }
  }

  function Min(a: int, b: int): int { if a <= b then a else b }
  function Max(a: int, b: int): int { if a >= b then a else b }

  // ---------------------------------------------------------------------------
  // Ordered dictionaries
  // ---------------------------------------------------------------------------

  /** A Python dict: its items in insertion order. */
  type Dict<K, V> = seq<(K, V)>

  ghost predicate DistinctKeys<K, V>(d: Dict<K, V>) {
    forall i, j :: 0 <= i < j < |d| ==> d[i].0 != d[j].0
  }

  function KeysOf<K, V>(d: Dict<K, V>): (ks: seq<K>)
    ensures |ks| == |d|
    ensures forall i :: 0 <= i < |d| ==> ks[i] == d[i].0
  {
    seq(|d|, i requires 0 <= i < |d| => d[i].0)
  }

  /** `key in d` and `d[key]` together. */
  function Lookup<K(==), V>(d: Dict<K, V>, k: K): (r: Option<V>)
    ensures r.None? <==> forall i :: 0 <= i < |d| ==> d[i].0 != k
    ensures r.Some? ==> exists i :: 0 <= i < |d| && d[i] == (k, r.value)
  {
    if d == [] then None
    else if d[0].0 == k then Some(d[0].1)
    else
      var r := Lookup(d[1..], k);
      assert r.Some? ==> exists i :: 1 <= i < |d| && d[i] == (k, r.value) by {
        if r.Some? {
          var j :| 0 <= j < |d[1..]| && d[1..][j] == (k, r.value);
          assert d[j + 1] == (k, r.value);
        }
      }
      r
  }

  lemma LookupAt<K, V>(d: Dict<K, V>, i: nat)
    requires DistinctKeys(d) && i < |d|
    ensures Lookup(d, d[i].0) == Some(d[i].1)
  {
    if i > 0 {
      assert d[1..][i - 1] == d[i];
      LookupAt(d[1..], i - 1);
    }
  }

  // ---------------------------------------------------------------------------
  // Filtering and counting
  // ---------------------------------------------------------------------------

  /** `[x for x in s if p(x)]`, built from the front as a loop builds it. */
  function Filter<T>(s: seq<T>, p: T -> bool): (r: seq<T>)
    ensures |r| <= |s|
  {
    if s == [] then []
    else Filter(s[..|s| - 1], p) + (if p(s[|s| - 1]) then [s[|s| - 1]] else [])
  }

  lemma {:induction false} FilterMembership<T>(s: seq<T>, p: T -> bool, x: T)
    ensures x in Filter(s, p) <==> x in s && p(x)
  {
    if s != [] {
      FilterMembership(s[..|s| - 1], p, x);
      assert s == s[..|s| - 1] + [s[|s| - 1]];
    }
  }

  /** One more step of a loop that builds a selection over `s[..i]`. */
  lemma FilterPrefixStep<T>(s: seq<T>, i: nat, p: T -> bool)
    requires i < |s|
    ensures Filter(s[..i + 1], p) == Filter(s[..i], p) + if p(s[i]) then [s[i]] else []
  {
    assert s[..i + 1][..i] == s[..i];
  }

  lemma {:induction false} FilterAppend<T>(s: seq<T>, t: seq<T>, p: T -> bool)
    ensures Filter(s + t, p) == Filter(s, p) + Filter(t, p)
    decreases |t|
  {
    if t == [] {
      assert s + t == s;
    } else {
      assert (s + t)[..|s + t| - 1] == s + t[..|t| - 1];
      FilterAppend(s, t[..|t| - 1], p);
    }
  }

  /** Every element that passes the test is kept and none that fails it. */
  lemma {:induction false} FilterAllPass<T>(s: seq<T>, p: T -> bool)
    requires forall i :: 0 <= i < |s| ==> p(s[i])
    ensures Filter(s, p) == s
  {
    if s != [] {
      FilterAllPass(s[..|s| - 1], p);
    }
  }

  /** Two tests that agree on every element make the same selection. */
  lemma {:induction false} FilterExt<T>(s: seq<T>, p: T -> bool, q: T -> bool)
    requires forall i :: 0 <= i < |s| ==> p(s[i]) == q(s[i])
    ensures Filter(s, p) == Filter(s, q)
  {
    if s != [] {
      FilterExt(s[..|s| - 1], p, q);
    }
  }

  /** Filtering twice is filtering once by both tests. */
  lemma {:induction false} FilterCompose<T>(s: seq<T>, p: T -> bool, q: T -> bool, pq: T -> bool)
    requires forall i :: 0 <= i < |s| ==> pq(s[i]) == (p(s[i]) && q(s[i]))
    ensures Filter(Filter(s, p), q) == Filter(s, pq)
  {
    if s != [] {
      var init := s[..|s| - 1];
      FilterCompose(init, p, q, pq);
      var x := s[|s| - 1];
      FilterAppend(Filter(init, p), if p(x) then [x] else [], q);
      assert Filter([x], q) == Filter([], q) + (if q(x) then [x] else []);
    }
  }

  /** A selection keeps its elements distinct. */
  lemma {:induction false} FilterDistinct<T>(s: seq<T>, p: T -> bool)
    requires Distinct(s)
    ensures Distinct(Filter(s, p))
  {
    if s != [] {
      var init := s[..|s| - 1];
      FilterDistinct(init, p);
      FilterMembership(init, p, s[|s| - 1]);
    }
  }

  /** Splitting a selection by two complementary tests splits its size. */
  lemma {:induction false} FilterPartition<T>(s: seq<T>, p: T -> bool, q: T -> bool, r: T -> bool)
    requires forall i :: 0 <= i < |s| ==> (q(s[i]) || r(s[i])) == p(s[i]) && !(q(s[i]) && r(s[i]))
    ensures |Filter(s, q)| + |Filter(s, r)| == |Filter(s, p)|
  {
    if s != [] {
      FilterPartition(s[..|s| - 1], p, q, r);
    }
  }

  /** `sum(1 for x in s if p(x))`. */
  function Count<T>(s: seq<T>, p: T -> bool): nat {
    |Filter(s, p)|
  }

  // ---------------------------------------------------------------------------
  // Python slices
  // ---------------------------------------------------------------------------

  /** `s[:k]` for any integer k. */
  function TakePy<T>(s: seq<T>, k: int): (r: seq<T>)
    ensures k >= 0 ==> r == s[..Min(k, |s|)]
    ensures k < 0 ==> r == s[..Max(0, |s| + k)]
  {
    if k >= 0 then s[..Min(k, |s|)] else s[..Max(0, |s| + k)]
  }

  /** `s[k:]` for any integer k. */
  function DropPy<T>(s: seq<T>, k: int): (r: seq<T>)
    ensures k >= 0 ==> r == s[Min(k, |s|)..]
    ensures k < 0 ==> r == s[Max(0, |s| + k)..]
  {
    if k >= 0 then s[Min(k, |s|)..] else s[Max(0, |s| + k)..]
  }

  /** `s[:k] + s[k:] == s` for every integer k: the two slices split the
      list at one point, and neither is longer than the list. */
  lemma TakeDropSplit<T>(s: seq<T>, k: int)
    ensures TakePy(s, k) + DropPy(s, k) == s
    ensures |TakePy(s, k)| <= |s| && |DropPy(s, k)| <= |s|
  {
  }

  /** `s[-k:]` keeps the last k items in order, for k > 0. */
  lemma LastItems<T>(s: seq<T>, k: int)
    requires k > 0
    ensures |DropPy(s, -k)| == Min(k, |s|)
    ensures DropPy(s, -k) == s[|s| - Min(k, |s|)..]
  {
  }

  function Reverse<T>(s: seq<T>): (r: seq<T>)
    ensures |r| == |s|
    ensures forall i :: 0 <= i < |s| ==> r[i] == s[|s| - 1 - i]
  {
    seq(|s|, i requires 0 <= i < |s| => s[|s| - 1 - i])
  }

  /** `s[::k]` for k > 0: the items at indices 0, k, 2k, ... */
  function Stride<T>(s: seq<T>, k: int): (r: seq<T>)
    requires k > 0
    decreases |s|
  {
    if s == [] then [] else [s[0]] + Stride(s[Min(k, |s|)..], k)
  }

  lemma {:induction false} StrideLength<T>(s: seq<T>, k: int)
    requires k > 0
    ensures |Stride(s, k)| == (|s| + k - 1) / k
    decreases |s|
  {
    if s != [] {
      StrideLength(s[Min(k, |s|)..], k);
      if |s| <= k {
        DivUnique(|s| + k - 1, k, 1);
      } else {
        DivAddK(|s| - 1, k);
      }
    }
  }

  lemma DivUnique(a: int, k: int, q: int)
    requires k > 0 && q * k <= a < q * k + k
    ensures a / k == q
  {
    var q', r := a / k, a % k;
    assert a == q' * k + r && 0 <= r < k;
    if q' < q {
      MulStep(q', q, k);
    } else if q' > q {
      MulStep(q, q', k);
    }
  }

  lemma MulStep(a: int, b: int, k: int)
    requires a < b && k > 0
    ensures a * k + k <= b * k
  {
    MulMono(a + 1, b, k);
    assert (a + 1) * k == a * k + k;
  }

  lemma DivAddK(a: int, k: int)
    requires a >= 0 && k > 0
    ensures (a + k) / k == a / k + 1
  {
    var m, r := a / k, a % k;
    assert a == m * k + r && 0 <= r < k;
    assert (m + 1) * k == m * k + k;
    DivUnique(a + k, k, m + 1);
  }

  lemma MulMono(a: int, b: int, k: int)
    requires a <= b && k > 0
    ensures a * k <= b * k
  {
    assert b * k - a * k == (b - a) * k;
  }

  lemma {:induction false} StrideAt<T>(s: seq<T>, k: int, i: nat)
    requires k > 0 && i < |Stride(s, k)|
    ensures i * k < |s| && Stride(s, k)[i] == s[i * k]
    decreases |s|
  {
    if i > 0 {
      var rest := s[Min(k, |s|)..];
      StrideAt(rest, k, i - 1);
      var j := (i - 1) * k;
      assert j + k == i * k;
      assert Stride(s, k)[i] == Stride(rest, k)[i - 1] == rest[j] == s[k + j];
    }
  }

  // ---------------------------------------------------------------------------
  // Stable sort, descending by a key (Python's sorted(..., reverse=True))
  // ---------------------------------------------------------------------------

  ghost predicate SortedDesc<T>(s: seq<T>, key: T -> real) {
    forall i, j :: 0 <= i < j < |s| ==> key(s[i]) >= key(s[j])
  }

  /** Inserts x after every element whose key is at least key(x), so equal keys
      keep their arrival order. */
  function InsertDesc<T>(x: T, s: seq<T>, key: T -> real): (r: seq<T>)
    ensures multiset(r) == multiset(s) + multiset{x}
    ensures |r| == |s| + 1
  {
    if s == [] then [x]
    else if key(s[0]) >= key(x) then
      assert s == [s[0]] + s[1..];
      [s[0]] + InsertDesc(x, s[1..], key)
    else [x] + s
  }

  lemma {:induction false} InsertDescSorted<T>(x: T, s: seq<T>, key: T -> real)
    requires SortedDesc(s, key)
    ensures SortedDesc(InsertDesc(x, s, key), key)
  {
    if s != [] && key(s[0]) >= key(x) {
      InsertDescSorted(x, s[1..], key);
      var r := InsertDesc(x, s[1..], key);
      assert multiset(r) == multiset(s[1..]) + multiset{x};
      forall j | 0 <= j < |r| ensures key(s[0]) >= key(r[j]) {
        assert r[j] in multiset(r);
        if r[j] == x {
        } else {
          assert r[j] in multiset(s[1..]);
          var m :| 0 <= m < |s[1..]| && s[1..][m] == r[j];
          assert s[m + 1] == r[j];
        }
      }
    }
  }

  /** `sorted(s, key=key, reverse=True)`. */
  function SortDesc<T>(s: seq<T>, key: T -> real): (r: seq<T>)
    ensures multiset(r) == multiset(s)
    ensures |r| == |s|
  {
    if s == [] then []
    else
      assert s == s[..|s| - 1] + [s[|s| - 1]];
      InsertDesc(s[|s| - 1], SortDesc(s[..|s| - 1], key), key)
  }

  lemma {:induction false} SortDescSorted<T>(s: seq<T>, key: T -> real)
    ensures SortedDesc(SortDesc(s, key), key)
  {
    if s != [] {
      SortDescSorted(s[..|s| - 1], key);
      InsertDescSorted(s[|s| - 1], SortDesc(s[..|s| - 1], key), key);
    }
  }

  function KeyIs<T>(key: T -> real, v: real): T -> bool {
    (x: T) => key(x) == v
  }

  lemma {:induction false} FilterNone<T>(s: seq<T>, p: T -> bool)
    requires forall i :: 0 <= i < |s| ==> !p(s[i])
    ensures Filter(s, p) == []
  {
    if s != [] {
      FilterNone(s[..|s| - 1], p);
    }
  }

  lemma {:induction false} FilterCons<T>(x: T, s: seq<T>, p: T -> bool)
    ensures Filter([x] + s, p) == (if p(x) then [x] else []) + Filter(s, p)
  {
    FilterAppend([x], s, p);
    assert [x][..0] == [];
  }

  /** Inserting into a sorted list puts x after every element of equal key. */
  lemma {:induction false} InsertDescStable<T>(x: T, s: seq<T>, key: T -> real, v: real)
    requires SortedDesc(s, key)
    ensures Filter(InsertDesc(x, s, key), KeyIs(key, v)) == Filter(s, KeyIs(key, v)) + (if key(x) == v then [x] else [])
    decreases |s|, 1
  {
    var p := KeyIs(key, v);
    if s == [] {
      assert InsertDesc(x, s, key) == [x];
      assert [x] == [] + [x];
      FilterCons(x, [], p);
    } else if key(s[0]) >= key(x) {
      InsertDescStableSkip(x, s, key, v);
    } else {
      assert InsertDesc(x, s, key) == [x] + s;
      FilterCons(x, s, p);
      if key(x) == v {
        forall i | 0 <= i < |s| ensures !p(s[i]) {
          assert i == 0 || key(s[0]) >= key(s[i]);
        }
        FilterNone(s, p);
      }
    }
  }

  lemma {:induction false} InsertDescStableSkip<T>(x: T, s: seq<T>, key: T -> real, v: real)
    requires SortedDesc(s, key) && s != [] && key(s[0]) >= key(x)
    ensures Filter(InsertDesc(x, s, key), KeyIs(key, v)) == Filter(s, KeyIs(key, v)) + (if key(x) == v then [x] else [])
    decreases |s|, 0
  {
    var p := KeyIs(key, v);
    var t := s[1..];
    assert SortedDesc(t, key) by {
      forall i, j | 0 <= i < j < |t| ensures key(t[i]) >= key(t[j]) {
        assert t[i] == s[i + 1] && t[j] == s[j + 1];
      }
    }
    var rest := InsertDesc(x, t, key);
    assert InsertDesc(x, s, key) == [s[0]] + rest;
    var pre := if p(s[0]) then [s[0]] else [];
    var xs := if key(x) == v then [x] else [];
    InsertDescStable(x, t, key, v);
    assert Filter(rest, p) == Filter(t, p) + xs;
    FilterCons(s[0], rest, p);
    assert [s[0]] + t == s;
    FilterCons(s[0], t, p);
    calc {
      Filter(InsertDesc(x, s, key), p);
      Filter([s[0]] + rest, p);
      pre + Filter(rest, p);
      pre + (Filter(t, p) + xs);
      (pre + Filter(t, p)) + xs;
      Filter(s, p) + xs;
    }
  }

  /** The sort is stable: the elements of any one key keep their input order. */
  lemma {:induction false} SortDescStable<T>(s: seq<T>, key: T -> real, v: real)
    ensures Filter(SortDesc(s, key), KeyIs(key, v)) == Filter(s, KeyIs(key, v))
  {
    if s != [] {
      var init := s[..|s| - 1];
      SortDescStable(init, key, v);
      SortDescSorted(init, key);
      InsertDescStable(s[|s| - 1], SortDesc(init, key), key, v);
    }
  }

  // ---------------------------------------------------------------------------
  // Decimal formatting: f"{n:03d}"
  // ---------------------------------------------------------------------------

  function DigitChar(d: int): char
    requires 0 <= d < 10
  {
    "0123456789"[d]
  }

  function DigitValue(c: char): int {
    if '0' <= c <= '9' then (c as int) - ('0' as int) else 0
  }

  /** The decimal digits of n, without leading zeros. */
  function Decimal(n: nat): (s: string)
    ensures |s| >= 1
    ensures forall i :: 0 <= i < |s| ==> '0' <= s[i] <= '9'
  {
    if n < 10 then [DigitChar(n)] else Decimal(n / 10) + [DigitChar(n % 10)]
  }

  /** `f"{n:0{w}d}"`: the decimal digits of n, left-padded with zeros to w. */
  function ZeroPad(n: nat, w: nat): (s: string)
    ensures |s| >= w
    ensures forall i :: 0 <= i < |s| ==> '0' <= s[i] <= '9'
  {
    var d := Decimal(n);
    if |d| >= w then d else seq(w - |d|, _ => '0') + d
  }

  /** Reads a string of decimal digits back as a number. */
  function ParseDecimal(s: string): nat {
    if s == [] then 0 else 10 * ParseDecimal(s[..|s| - 1]) + Max(0, DigitValue(s[|s| - 1]))
  }

  lemma {:induction false} ParseDecimalRoundTrip(n: nat)
    ensures ParseDecimal(Decimal(n)) == n
  {
    if n >= 10 {
      var s := Decimal(n / 10) + [DigitChar(n % 10)];
      assert s[..|s| - 1] == Decimal(n / 10);
      ParseDecimalRoundTrip(n / 10);
    }
  }

  lemma {:induction false} ParseDecimalLeadingZeros(z: nat, s: string)
    ensures ParseDecimal(seq(z, _ => '0') + s) == ParseDecimal(s)
    decreases |s|
  {
    var zs: string := seq(z, _ => '0');
    if s == [] {
      assert zs + s == zs;
      ZerosParseToZero(z);
    } else {
      var t := zs + s;
      assert t[..|t| - 1] == zs + s[..|s| - 1];
      ParseDecimalLeadingZeros(z, s[..|s| - 1]);
    }
  }

  lemma {:induction false} ZerosParseToZero(z: nat)
    ensures ParseDecimal(seq(z, _ => '0')) == 0
  {
    if z > 0 {
      var zs: string := seq(z, _ => '0');
      assert zs[..z - 1] == seq(z - 1, _ => '0');
      ZerosParseToZero(z - 1);
    }
  }

  /** Padding loses nothing: the number can be read back from its padded form,
      so distinct counters give distinct identifiers. */
  lemma ZeroPadRoundTrip(n: nat, w: nat)
    ensures ParseDecimal(ZeroPad(n, w)) == n
  {
    var d := Decimal(n);
    ParseDecimalRoundTrip(n);
    if |d| < w {
      ParseDecimalLeadingZeros(w - |d|, d);
    }
  }

  lemma ZeroPadInjective(a: nat, b: nat, w: nat)
    requires ZeroPad(a, w) == ZeroPad(b, w)
    ensures a == b
  {
    ZeroPadRoundTrip(a, w);
    ZeroPadRoundTrip(b, w);
  }

  // ---------------------------------------------------------------------------
  // ASCII case mapping and string order
  // ---------------------------------------------------------------------------

  function UpperChar(c: char): char {
    if 'a' <= c <= 'z' then ((c as int) - 32) as char else c
  }

  /** `s.upper()` on ASCII letters. */
  function Upper(s: string): (r: string)
    ensures |r| == |s|
    ensures forall i :: 0 <= i < |s| ==> r[i] == UpperChar(s[i])
  {
    seq(|s|, i requires 0 <= i < |s| => UpperChar(s[i]))
  }

  /** Upper-casing is idempotent and leaves no lower-case ASCII letter;
      characters other than lower-case letters are kept as they are. */
  lemma UpperIdempotent(s: string)
    ensures Upper(Upper(s)) == Upper(s)
    ensures forall i :: 0 <= i < |s| ==> !('a' <= Upper(s)[i] <= 'z')
    ensures forall i :: 0 <= i < |s| && !('a' <= s[i] <= 'z') ==> Upper(s)[i] == s[i]
  {
  }

  /** Python's `a < b` on strings: lexicographic by code point. */
  predicate StrLess(a: string, b: string) {
    if b == [] then false
    else if a == [] then true
    else if a[0] != b[0] then a[0] < b[0]
    else StrLess(a[1..], b[1..])
  }

  // ---------------------------------------------------------------------------
  // Sums over a sequence of keys
  // ---------------------------------------------------------------------------

  ghost predicate Distinct<T>(xs: seq<T>) {
    forall i, j :: 0 <= i < j < |xs| ==> xs[i] != xs[j]
  }

  function SumOf<T>(xs: seq<T>, f: T -> int): int {
    if xs == [] then 0 else SumOf(xs[..|xs| - 1], f) + f(xs[|xs| - 1])
  }

  /** Changing a function at two distinct keys changes its sum over a list of
      distinct keys by exactly those two differences. */
  lemma {:induction false} SumTwoChanged<T>(xs: seq<T>, f: T -> int, g: T -> int, a: T, b: T)
    requires Distinct(xs) && a != b
    requires forall x :: x in xs && x != a && x != b ==> f(x) == g(x)
    ensures SumOf(xs, g) == SumOf(xs, f) + (if a in xs then g(a) - f(a) else 0)
                                         + (if b in xs then g(b) - f(b) else 0)
  {
    if xs != [] {
      var n := |xs| - 1;
      var init := xs[..n];
      assert Distinct(init);
      assert forall x :: x in xs <==> x in init || x == xs[n];
      assert xs[n] !in init;
      SumTwoChanged(init, f, g, a, b);
    }
  }

  /** Moving an amount between two distinct keys leaves the sum unchanged. */
  lemma SumTransfer<T>(xs: seq<T>, f: T -> int, g: T -> int, a: T, b: T)
    requires Distinct(xs) && a != b && a in xs && b in xs
    requires forall x :: x in xs && x != a && x != b ==> f(x) == g(x)
    requires f(a) + f(b) == g(a) + g(b)
    ensures SumOf(xs, g) == SumOf(xs, f)
  {
    SumTwoChanged(xs, f, g, a, b);
  }
}
