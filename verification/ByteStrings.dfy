/** Go strings as byte sequences: order, sorting, splitting and decimal numerals. */
module ByteStrings {
  import opened Prelude

  // ---- the order that sort.Strings uses ----

  predicate Leq(a: Bytes, b: Bytes) {
    if a == [] then true
    else if b == [] then false
    else if a[0] != b[0] then a[0] < b[0]
    else Leq(a[1..], b[1..])
  }

  lemma LeqTotal(a: Bytes, b: Bytes)
    ensures Leq(a, b) || Leq(b, a)
  {
  }

  lemma LeqAntisymmetric(a: Bytes, b: Bytes)
    requires Leq(a, b) && Leq(b, a)
    ensures a == b
  {
    if a != [] && b != [] {
      LeqAntisymmetric(a[1..], b[1..]);
      assert a == [a[0]] + a[1..] && b == [b[0]] + b[1..];
    }
  }

  lemma LeqTransitive(a: Bytes, b: Bytes, c: Bytes)
    requires Leq(a, b) && Leq(b, c)
    ensures Leq(a, c)
  {
    if a != [] && a[0] == b[0] && b[0] == c[0] {
      LeqTransitive(a[1..], b[1..], c[1..]);
    }
  }

  // ---- sorting ----

  predicate Sorted(s: seq<Bytes>) {
    forall i, j :: 0 <= i < j < |s| ==> Leq(s[i], s[j])
  }

  function Insert(x: Bytes, s: seq<Bytes>): (r: seq<Bytes>)
    requires Sorted(s)
    ensures Sorted(r) && multiset(r) == multiset{x} + multiset(s)
  {
    if s == [] then [x]
    else if Leq(x, s[0]) then
      assert forall i :: 0 <= i < |s| ==> Leq(x, s[i]) by {
        forall i | 0 < i < |s| ensures Leq(x, s[i]) { LeqTransitive(x, s[0], s[i]); }
      }
      [x] + s
    else
      var t := Insert(x, s[1..]);
      assert s == [s[0]] + s[1..];
      assert forall i :: 0 <= i < |t| ==> Leq(s[0], t[i]) by {
        LeqTotal(x, s[0]);
        forall i | 0 <= i < |t| ensures Leq(s[0], t[i]) {
          assert t[i] in multiset(t);
          assert t[i] == x || t[i] in multiset(s[1..]);
        }
      }
      [s[0]] + t
  }

  /** sort.Strings, specified by its result. */
  function Sort(s: seq<Bytes>): (r: seq<Bytes>)
    ensures Sorted(r) && multiset(r) == multiset(s)
  {
    if s == [] then []
    else
      assert s == [s[0]] + s[1..];
      Insert(s[0], Sort(s[1..]))
  }

  lemma LeqReflexive(a: Bytes)
    ensures Leq(a, a)
  {
  }

  /** A sorted list is determined by its elements. */
  lemma {:induction false} SortedUnique(a: seq<Bytes>, b: seq<Bytes>)
    requires Sorted(a) && Sorted(b) && multiset(a) == multiset(b)
    ensures a == b
  {
    assert |multiset(a)| == |a| && |multiset(b)| == |b|;
    if a != [] {
      FirstIsLeast(a, b);
      FirstIsLeast(b, a);
      LeqAntisymmetric(a[0], b[0]);
      WithoutFirst(a);
      WithoutFirst(b);
      SortedUnique(a[1..], b[1..]);
    }
  }

  lemma WithoutFirst(a: seq<Bytes>)
    requires a != []
    ensures a == [a[0]] + a[1..] && multiset(a[1..]) == multiset(a) - multiset{a[0]}
    ensures Sorted(a) ==> Sorted(a[1..])
  {
    assert a == [a[0]] + a[1..];
  }

  lemma FirstIsLeast(a: seq<Bytes>, b: seq<Bytes>)
    requires Sorted(a) && multiset(a) == multiset(b) && a != [] && b != []
    ensures Leq(a[0], b[0])
  {
    assert b[0] in multiset(b);
    var i :| 0 <= i < |a| && a[i] == b[0];
    LeqReflexive(a[0]);
  }

  ghost predicate Distinct(keys: seq<Bytes>) {
    forall i, j :: 0 <= i < j < |keys| ==> keys[i] != keys[j]
  }

  lemma {:induction false} OnceMeansDistinct(keys: seq<Bytes>)
    requires forall k :: multiset(keys)[k] <= 1
    ensures Distinct(keys)
  {
    if keys != [] {
      var n := |keys| - 1;
      assert keys == keys[..n] + [keys[n]];
      assert forall k :: multiset(keys[..n])[k] <= multiset(keys)[k];
      OnceMeansDistinct(keys[..n]);
      assert keys[n] !in multiset(keys[..n]);
    }
  }

  lemma {:induction false} DistinctMeansOnce(keys: seq<Bytes>, k: Bytes)
    requires Distinct(keys)
    ensures multiset(keys)[k] <= 1
  {
    if keys != [] {
      var n := |keys| - 1;
      assert keys == keys[..n] + [keys[n]];
      DistinctMeansOnce(keys[..n], k);
      assert keys[n] !in keys[..n];
    }
  }

  lemma Concat(a: Bytes, b: Bytes, c: Bytes)
    ensures a + b + c == a + (b + c)
  {
  }

  lemma Associate(a: Bytes, b: Bytes, sep: byte, c: Bytes)
    ensures a + b + [sep] + c == a + (b + [sep] + c)
  {
    Concat(a, b, [sep]);
    Concat(a, b + [sep], c);
  }

  // ---- splitting at a separator ----

  /** The length of the part before the first separator. */
  function Front(s: Bytes, sep: byte): (n: nat)
    ensures n <= |s|
  {
    if s == [] || s[0] == sep then 0 else 1 + Front(s[1..], sep)
  }

  /** The length of the part after the last separator. */
  function Back(s: Bytes, sep: byte): (n: nat)
    ensures n <= |s|
  {
    if s == [] || s[|s| - 1] == sep then 0 else 1 + Back(s[..|s| - 1], sep)
  }

  lemma {:induction false} FrontOf(a: Bytes, t: Bytes, sep: byte)
    requires sep !in a && (t == [] || t[0] == sep)
    ensures Front(a + t, sep) == |a|
  {
    if a == [] {
      assert a + t == t;
    } else {
      assert (a + t)[1..] == a[1..] + t;
      FrontOf(a[1..], t, sep);
    }
  }

  lemma {:induction false} BackOf(t: Bytes, a: Bytes, sep: byte)
    requires sep !in a
    ensures Back(t + [sep] + a, sep) == |a|
  {
    var s := t + [sep] + a;
    if a == [] {
      assert s[|s| - 1] == sep;
    } else {
      assert s[..|s| - 1] == t + [sep] + a[..|a| - 1];
      assert s[|s| - 1] == a[|a| - 1];
      BackOf(t, a[..|a| - 1], sep);
    }
  }

  /** The part of a byte string before the first separator is determined by the string. */
  lemma SplitFront(a: Bytes, t: Bytes, a': Bytes, t': Bytes, sep: byte)
    requires sep !in a && sep !in a' && a + t == a' + t'
    requires (t == [] || t[0] == sep) && (t' == [] || t'[0] == sep)
    ensures a == a' && t == t'
  {
    FrontOf(a, t, sep);
    FrontOf(a', t', sep);
    assert a == (a + t)[..|a|] && a' == (a' + t')[..|a'|];
    assert t == (a + t)[|a|..] && t' == (a' + t')[|a'|..];
  }

  lemma SplitFirst(a: Bytes, t: Bytes, a': Bytes, t': Bytes, sep: byte)
    requires sep !in a && sep !in a' && a + [sep] + t == a' + [sep] + t'
    ensures a == a' && t == t'
  {
    assert a + [sep] + t == a + ([sep] + t) && a' + [sep] + t' == a' + ([sep] + t');
    SplitFront(a, [sep] + t, a', [sep] + t', sep);
    assert t == ([sep] + t)[1..] && t' == ([sep] + t')[1..];
  }

  /** So is the part after the last separator. */
  lemma SplitBack(t: Bytes, a: Bytes, t': Bytes, a': Bytes, sep: byte)
    requires sep !in a && sep !in a' && t + [sep] + a == t' + [sep] + a'
    ensures a == a' && t == t'
  {
    BackOf(t, a, sep);
    BackOf(t', a', sep);
    var s := t + [sep] + a;
    assert a == s[|s| - |a|..] && a' == s[|s| - |a'|..];
    assert t == s[..|s| - |a| - 1] && t' == s[..|s| - |a'| - 1];
  }

  /** strings.Split by a one-byte separator. */
  function Split(s: Bytes, sep: byte): (r: seq<Bytes>)
    ensures |r| > 0 && forall i :: 0 <= i < |r| ==> sep !in r[i]
    decreases |s|
  {
    var n := Front(s, sep);
    FrontSplits(s, sep);
    if n == |s| then [s] else [s[..n]] + Split(s[n + 1..], sep)
  }

  lemma {:induction false} FrontSplits(s: Bytes, sep: byte)
    ensures sep !in s[..Front(s, sep)]
    ensures Front(s, sep) < |s| ==> s[Front(s, sep)] == sep
  {
    if s != [] && s[0] != sep {
      FrontSplits(s[1..], sep);
      assert s[..Front(s, sep)] == [s[0]] + s[1..][..Front(s[1..], sep)];
    }
  }

  // ---- strconv.FormatInt and ParseInt, base 10 ----

  function Digits(n: nat): (r: Bytes)
    ensures |r| > 0 && forall i :: 0 <= i < |r| ==> 48 <= r[i] <= 57
  {
    if n < 10 then [(48 + n) as byte] else Digits(n / 10) + [(48 + n % 10) as byte]
  }

  function FormatInt(n: int): Bytes {
    if n < 0 then [45] + Digits(-n) else Digits(n)
  }

  function Value(s: Bytes): (n: nat)
    requires forall i :: 0 <= i < |s| ==> 48 <= s[i] <= 57
  {
    if s == [] then 0 else Value(s[..|s| - 1]) * 10 + (s[|s| - 1] as int - 48)
  }

  predicate IsDigits(s: Bytes) {
    |s| > 0 && forall i :: 0 <= i < |s| ==> 48 <= s[i] <= 57
  }

  /** ParseInt accepts an optional sign and then digits, leading zeros included. */
  function ParseInt(s: Bytes): Option<int> {
    if s != [] && (s[0] == 45 || s[0] == 43) then
      if IsDigits(s[1..]) then Some((if s[0] == 45 then -1 else 1) * Value(s[1..])) else None
    else if IsDigits(s) then Some(Value(s))
    else None
  }

  lemma {:induction false} DigitsValue(n: nat)
    ensures Value(Digits(n)) == n
  {
    if n >= 10 {
      DigitsValue(n / 10);
      assert Digits(n)[..|Digits(n)| - 1] == Digits(n / 10);
    }
  }

  lemma ParseDigits(d: Bytes)
    requires IsDigits(d)
    ensures ParseInt(d) == Some(Value(d)) && ParseInt([45] + d) == Some(-1 * Value(d))
    ensures 10 !in d && 10 !in [45] + d
  {
    assert ([45] + d)[1..] == d;
  }

  /** Every integer reads back from its numeral, which is free of newlines. */
  lemma ParseFormat(n: int)
    ensures ParseInt(FormatInt(n)) == Some(n)
    ensures 10 !in FormatInt(n)
  {
    var m := if n < 0 then -n else n;
    DigitsValue(m);
    ParseDigits(Digits(m));
  }
}
