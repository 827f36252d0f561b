/** The byte sequence that a request signature covers (plugins/hmacauth/canonical.go). */
module CanonicalRequest {
  import opened Prelude
  import opened ByteStrings

  const NEWLINE: byte := 10
  const PERCENT: byte := 37
  const AMPERSAND: byte := 38
  const EQUALS: byte := 61

  // ---- percent-encoding, section 2.3 of RFC 3986 ----

  predicate IsUnreserved(c: byte) {
    || 65 <= c <= 90
    || 97 <= c <= 122
    || 48 <= c <= 57
    || c == 45 || c == 46 || c == 95 || c == 126
  }

  function HexDigit(n: nat, ten: byte): (c: byte)
    requires n < 16 && (ten == 65 || ten == 97)
    ensures IsUnreserved(c)
  {
    if n < 10 then (48 + n) as byte else (ten as int + n - 10) as byte
  }

  /** The value of a hexadecimal digit of either case. */
  function HexValue(c: byte): Option<nat> {
    if 48 <= c <= 57 then Some(c as int - 48)
    else if 65 <= c <= 70 then Some(c as int - 55)
    else if 97 <= c <= 102 then Some(c as int - 87)
    else None
  }

  lemma HexDigitValue(n: nat, ten: byte)
    requires n < 16 && (ten == 65 || ten == 97)
    ensures HexValue(HexDigit(n, ten)) == Some(n)
  {
  }

  function EncodeByte(c: byte): Bytes {
    if IsUnreserved(c) then [c] else [PERCENT, HexDigit(c as int / 16, 65), HexDigit(c as int % 16, 65)]
  }

  function Encode(s: Bytes): Bytes {
    if s == [] then [] else Encode(s[..|s| - 1]) + EncodeByte(s[|s| - 1])
  }

  lemma EncodeOneMore(s: Bytes, i: nat)
    requires i < |s|
    ensures Encode(s[..i + 1]) == Encode(s[..i]) + EncodeByte(s[i])
  {
    assert s[..i + 1][..i] == s[..i];
  }

  /** percentEncode: a scan that returns the input unchanged when nothing needs escaping, and
      otherwise a byte-by-byte copy. */
  method PercentEncode(s: Bytes) returns (r: Bytes)
    ensures r == Encode(s)
  {
    var needs := NeedsEscaping(s);
    if !needs {
      return s;
    }
    r := EscapeBytes(s);
  }

  method NeedsEscaping(s: Bytes) returns (needs: bool)
    ensures !needs ==> Encode(s) == s
  {
    for i := 0 to |s|
      invariant Encode(s[..i]) == s[..i]
    {
      EncodeOneMore(s, i);
      if !IsUnreserved(s[i]) {
        return true;
      }
      assert s[..i + 1] == s[..i] + [s[i]];
    }
    assert s[..|s|] == s;
    return false;
  }

  method EscapeBytes(s: Bytes) returns (r: Bytes)
    ensures r == Encode(s)
  {
    r := [];
    for i := 0 to |s|
      invariant r == Encode(s[..i])
    {
      EncodeOneMore(s, i);
      var c := s[i];
      if IsUnreserved(c) {
        r := r + [c];
        continue;
      }
      r := r + [PERCENT];
      r := r + [HexDigit(c as int / 16, 65)];
      r := r + [HexDigit(c as int % 16, 65)];
    }
    assert s[..|s|] == s;
  }

  /** The inverse: reads the escape or the plain byte at the end of an encoded string. */
  function Decode(s: Bytes): Option<Bytes> {
    var n := |s|;
    if n == 0 then Some([])
    else if n >= 3 && s[n - 3] == PERCENT then
      match (HexValue(s[n - 2]), HexValue(s[n - 1]), Decode(s[..n - 3]))
      case (Some(hi), Some(lo), Some(front)) => Some(front + [(hi * 16 + lo) as byte])
      case _ => None
    else
      match Decode(s[..n - 1])
      case Some(front) => Some(front + [s[n - 1]])
      case None => None
  }

  /** What an encoded string is made of. */
  lemma {:induction false} EncodeAlphabet(s: Bytes)
    ensures forall c :: c in Encode(s) ==> IsUnreserved(c) || c == PERCENT
    ensures s == [] <==> Encode(s) == []
  {
    if s != [] {
      EncodeAlphabet(s[..|s| - 1]);
    }
  }

  predicate EscapesEnd(e: Bytes) {
    forall i :: 0 <= i < |e| && e[i] == PERCENT ==> i + 2 < |e|
  }

  /** Escapes are complete: the two bytes after a '%' belong to it. */
  lemma {:induction false} EncodeEscapes(s: Bytes)
    ensures EscapesEnd(Encode(s))
  {
    if s != [] {
      EncodeEscapes(s[..|s| - 1]);
    }
  }

  lemma DecodePlain(e: Bytes, c: byte)
    requires |e| >= 2 ==> e[|e| - 2] != PERCENT
    ensures Decode(e + [c]) == if Decode(e).None? then None else Some(Decode(e).value + [c])
  {
    assert (e + [c])[..|e|] == e;
    assert |e| >= 2 ==> (e + [c])[|e| - 2] == e[|e| - 2];
  }

  lemma DecodeEscape(e: Bytes, c: byte)
    ensures var escape := [PERCENT, HexDigit(c as int / 16, 65), HexDigit(c as int % 16, 65)];
            Decode(e + escape) == if Decode(e).None? then None else Some(Decode(e).value + [c])
  {
    var (hi, lo) := (HexDigit(c as int / 16, 65), HexDigit(c as int % 16, 65));
    var s := e + [PERCENT, hi, lo];
    HexDigitValue(c as int / 16, 65);
    HexDigitValue(c as int % 16, 65);
    assert s[..|s| - 3] == e && s[|s| - 3] == PERCENT && s[|s| - 2] == hi && s[|s| - 1] == lo;
  }

  lemma DecodeByte(e: Bytes, c: byte)
    requires EscapesEnd(e)
    ensures Decode(e + EncodeByte(c)) == if Decode(e).None? then None else Some(Decode(e).value + [c])
  {
    if IsUnreserved(c) {
      DecodePlain(e, c);
    } else {
      DecodeEscape(e, c);
    }
  }

  lemma {:induction false} DecodeEncode(s: Bytes)
    ensures Decode(Encode(s)) == Some(s)
  {
    if s != [] {
      var front, c := s[..|s| - 1], s[|s| - 1];
      DecodeEncode(front);
      EncodeEscapes(front);
      DecodeByte(Encode(front), c);
      assert s == front + [c];
    }
  }

  lemma EncodeInjective(s: Bytes, t: Bytes)
    requires Encode(s) == Encode(t)
    ensures s == t
  {
    DecodeEncode(s);
    DecodeEncode(t);
  }

  // ---- the canonical query ----

  type Query = map<Bytes, seq<Bytes>>

  datatype Pair = Pair(key: Bytes, value: Bytes)

  predicate PairLeq(p: Pair, p': Pair) {
    if p.key == p'.key then Leq(p.value, p'.value) else Leq(p.key, p'.key)
  }

  predicate PairsSorted(ps: seq<Pair>) {
    forall i, j :: 0 <= i < j < |ps| ==> PairLeq(ps[i], ps[j])
  }

  /** How often a query holds a key-value pair. */
  function Count(q: Query, p: Pair): nat {
    if p.key in q then multiset(q[p.key])[p.value] else 0
  }

  /** The two queries hold the same pairs equally often. */
  ghost predicate SameQuery(q: Query, q': Query) {
    forall p :: Count(q, p) == Count(q', p)
  }

  /** The sorted list of a query's pairs. */
  ghost predicate Lists(ps: seq<Pair>, q: Query) {
    PairsSorted(ps) && forall p :: multiset(ps)[p] == Count(q, p)
  }

  function EncodePair(p: Pair): Bytes {
    Encode(p.key) + [EQUALS] + Encode(p.value)
  }

  function Render(ps: seq<Pair>): Bytes {
    if ps == [] then []
    else if |ps| == 1 then EncodePair(ps[0])
    else Render(ps[..|ps| - 1]) + [AMPERSAND] + EncodePair(ps[|ps| - 1])
  }

  lemma RenderAppend(ps: seq<Pair>, p: Pair)
    ensures Render(ps + [p]) == if ps == [] then EncodePair(p) else Render(ps) + [AMPERSAND] + EncodePair(p)
  {
    assert (ps + [p])[..|ps|] == ps;
  }

  lemma NeitherIn(c: byte, a: Bytes, sep: byte, b: Bytes)
    requires c !in a && c != sep && c !in b
    ensures c !in a + [sep] + b
  {
  }

  lemma EncodePairAlphabet(p: Pair)
    ensures AMPERSAND !in EncodePair(p) && NEWLINE !in EncodePair(p)
  {
    EncodeAlphabet(p.key);
    EncodeAlphabet(p.value);
    NeitherIn(AMPERSAND, Encode(p.key), EQUALS, Encode(p.value));
    NeitherIn(NEWLINE, Encode(p.key), EQUALS, Encode(p.value));
  }

  lemma {:induction false} RenderAlphabet(ps: seq<Pair>)
    ensures NEWLINE !in Render(ps)
    ensures Render(ps) == [] <==> ps == []
    ensures AMPERSAND in Render(ps) <==> |ps| >= 2
  {
    if ps != [] {
      EncodePairAlphabet(ps[|ps| - 1]);
      RenderAlphabet(ps[..|ps| - 1]);
    }
  }

  lemma EncodePairInjective(p: Pair, p': Pair)
    requires EncodePair(p) == EncodePair(p')
    ensures p == p'
  {
    EncodeAlphabet(p.key);
    EncodeAlphabet(p'.key);
    SplitFirst(Encode(p.key), Encode(p.value), Encode(p'.key), Encode(p'.value), EQUALS);
    EncodeInjective(p.key, p'.key);
    EncodeInjective(p.value, p'.value);
  }

  lemma SplitLastPair(a: Bytes, p: Pair, a': Bytes, p': Pair)
    requires a + [AMPERSAND] + EncodePair(p) == a' + [AMPERSAND] + EncodePair(p')
    ensures a == a' && p == p'
  {
    EncodePairAlphabet(p);
    EncodePairAlphabet(p');
    SplitBack(a, EncodePair(p), a', EncodePair(p'), AMPERSAND);
    EncodePairInjective(p, p');
  }

  lemma RenderLast(ps: seq<Pair>, ps': seq<Pair>)
    requires |ps| >= 2 && |ps'| >= 2 && Render(ps) == Render(ps')
    ensures Render(ps[..|ps| - 1]) == Render(ps'[..|ps'| - 1]) && ps[|ps| - 1] == ps'[|ps'| - 1]
  {
    SplitLastPair(Render(ps[..|ps| - 1]), ps[|ps| - 1], Render(ps'[..|ps'| - 1]), ps'[|ps'| - 1]);
  }

  lemma SameFrontAndLast(ps: seq<Pair>, ps': seq<Pair>)
    requires ps != [] && ps' != []
    requires ps[..|ps| - 1] == ps'[..|ps'| - 1] && ps[|ps| - 1] == ps'[|ps'| - 1]
    ensures ps == ps'
  {
    assert ps == ps[..|ps| - 1] + [ps[|ps| - 1]];
    assert ps' == ps'[..|ps'| - 1] + [ps'[|ps'| - 1]];
  }

  /** A rendering determines its list of pairs. */
  lemma {:induction false} RenderInjective(ps: seq<Pair>, ps': seq<Pair>)
    requires Render(ps) == Render(ps')
    ensures ps == ps'
  {
    RenderAlphabet(ps);
    RenderAlphabet(ps');
    if |ps| == 1 {
      EncodePairInjective(ps[0], ps'[0]);
    } else if |ps| >= 2 {
      RenderLast(ps, ps');
      RenderInjective(ps[..|ps| - 1], ps'[..|ps'| - 1]);
      SameFrontAndLast(ps, ps');
    }
  }

  lemma PairAntisymmetric(p: Pair, p': Pair)
    requires PairLeq(p, p') && PairLeq(p', p)
    ensures p == p'
  {
    if p.key == p'.key {
      LeqAntisymmetric(p.value, p'.value);
    } else {
      LeqAntisymmetric(p.key, p'.key);
    }
  }

  lemma LastIsGreatest(a: seq<Pair>, p: Pair)
    requires PairsSorted(a) && p in multiset(a)
    ensures a != [] && (p == a[|a| - 1] || PairLeq(p, a[|a| - 1]))
  {
    var i :| 0 <= i < |a| && a[i] == p;
  }

  lemma SameLast(a: seq<Pair>, b: seq<Pair>)
    requires PairsSorted(a) && PairsSorted(b) && multiset(a) == multiset(b) && a != []
    ensures b != [] && a[|a| - 1] == b[|b| - 1]
  {
    var x := a[|a| - 1];
    LastIsGreatest(b, x);
    var y := b[|b| - 1];
    LastIsGreatest(a, y);
    if x != y { PairAntisymmetric(x, y); }
  }

  lemma WithoutLast<T>(a: seq<T>)
    requires a != []
    ensures multiset(a[..|a| - 1]) == multiset(a) - multiset{a[|a| - 1]}
  {
    assert a == a[..|a| - 1] + [a[|a| - 1]];
  }

  /** A sorted list is determined by its elements. */
  lemma {:induction false} SortedUnique(a: seq<Pair>, b: seq<Pair>)
    requires PairsSorted(a) && PairsSorted(b) && multiset(a) == multiset(b)
    ensures a == b
  {
    if a == [] {
      assert |multiset(b)| == 0;
    } else {
      SameLast(a, b);
      WithoutLast(a);
      WithoutLast(b);
      SortedUnique(a[..|a| - 1], b[..|b| - 1]);
      assert a == a[..|a| - 1] + [a[|a| - 1]];
      assert b == b[..|b| - 1] + [b[|b| - 1]];
    }
  }

  // ---- building the sorted list, key by key ----

  function PairList(key: Bytes, values: seq<Bytes>): (ps: seq<Pair>)
    ensures |ps| == |values|
    ensures forall i :: 0 <= i < |ps| ==> ps[i] == Pair(key, values[i])
  {
    seq(|values|, i requires 0 <= i < |values| => Pair(key, values[i]))
  }

  lemma {:induction false} PairListCount(key: Bytes, values: seq<Bytes>, p: Pair)
    ensures multiset(PairList(key, values))[p] == if p.key == key then multiset(values)[p.value] else 0
  {
    if values != [] {
      var n := |values| - 1;
      PairListCount(key, values[..n], p);
      assert values == values[..n] + [values[n]];
      assert PairList(key, values) == PairList(key, values[..n]) + [Pair(key, values[n])];
    }
  }

  /** The pairs of the listed keys, each key's values sorted. */
  function PairsFor(keys: seq<Bytes>, q: Query): seq<Pair>
    requires forall k :: k in keys ==> k in q
  {
    if keys == [] then []
    else
      var n := |keys| - 1;
      PairsFor(keys[..n], q) + PairList(keys[n], Sort(q[keys[n]]))
  }

  lemma SortedPairsCount(key: Bytes, values: seq<Bytes>, p: Pair)
    ensures multiset(PairList(key, Sort(values)))[p] == if p.key == key then multiset(values)[p.value] else 0
  {
    PairListCount(key, Sort(values), p);
  }

  lemma LastKey(keys: seq<Bytes>, n: nat, k: Bytes)
    requires Distinct(keys) && n == |keys| - 1
    ensures k in keys <==> k in keys[..n] || k == keys[n]
    ensures keys[n] !in keys[..n] && Distinct(keys[..n])
  {
    assert keys == keys[..n] + [keys[n]];
  }

  lemma {:induction false} PairsForCount(keys: seq<Bytes>, q: Query, p: Pair)
    requires Distinct(keys) && forall k :: k in keys ==> k in q
    ensures multiset(PairsFor(keys, q))[p] == if p.key in keys then Count(q, p) else 0
  {
    if keys != [] {
      var n := |keys| - 1;
      LastKey(keys, n, p.key);
      PairsForCount(keys[..n], q, p);
      SortedPairsCount(keys[n], q[keys[n]], p);
    }
  }

  lemma {:induction false} PairsForKeys(keys: seq<Bytes>, q: Query)
    requires forall k :: k in keys ==> k in q
    ensures forall i :: 0 <= i < |PairsFor(keys, q)| ==> PairsFor(keys, q)[i].key in keys
  {
    if keys != [] {
      PairsForKeys(keys[..|keys| - 1], q);
    }
  }

  lemma SortedConcat(front: seq<Pair>, back: seq<Pair>)
    requires PairsSorted(front) && PairsSorted(back)
    requires forall i, j :: 0 <= i < |front| && 0 <= j < |back| ==> PairLeq(front[i], back[j])
    ensures PairsSorted(front + back)
  {
  }

  lemma PairListSorted(key: Bytes, values: seq<Bytes>)
    requires Sorted(values)
    ensures PairsSorted(PairList(key, values))
  {
  }

  lemma {:induction false} PairsForSorted(keys: seq<Bytes>, q: Query)
    requires Sorted(keys) && Distinct(keys) && forall k :: k in keys ==> k in q
    ensures PairsSorted(PairsFor(keys, q))
  {
    if keys != [] {
      var n := |keys| - 1;
      PairsForSorted(keys[..n], q);
      PairsForKeys(keys[..n], q);
      PairListSorted(keys[n], Sort(q[keys[n]]));
      var front, back := PairsFor(keys[..n], q), PairList(keys[n], Sort(q[keys[n]]));
      forall i, j | 0 <= i < |front| && 0 <= j < |back| ensures PairLeq(front[i], back[j]) {
        assert front[i].key in keys[..n];
        assert back[j].key == keys[n];
      }
      SortedConcat(front, back);
    }
  }

  lemma KeysListPairs(keys: seq<Bytes>, q: Query)
    requires Sorted(keys) && multiset(keys) == multiset(q.Keys)
    ensures (forall k :: k in keys <==> k in q) && Distinct(keys)
    ensures Lists(PairsFor(keys, q), q)
  {
    forall k ensures k in keys <==> k in q.Keys {
      assert k in keys <==> k in multiset(keys);
    }
    OnceMeansDistinct(keys);
    PairsForSorted(keys, q);
    forall p ensures multiset(PairsFor(keys, q))[p] == Count(q, p) {
      PairsForCount(keys, q, p);
    }
  }

  /** Some listing of a set. */
  ghost function Listing(ks: set<Bytes>): (r: seq<Bytes>)
    ensures multiset(r) == multiset(ks)
  {
    if ks == {} then []
    else
      var k :| k in ks;
      assert multiset(ks) == multiset(ks - {k}) + multiset{k};
      Listing(ks - {k}) + [k]
  }

  /** The one sorted list of a query's pairs. */
  ghost function PairsOf(q: Query): (ps: seq<Pair>)
    ensures Lists(ps, q)
  {
    var keys := Sort(Listing(q.Keys));
    KeysListPairs(keys, q);
    PairsFor(keys, q)
  }

  lemma ListedOnce(ps: seq<Pair>, q: Query)
    requires Lists(ps, q)
    ensures ps == PairsOf(q)
  {
    assert multiset(ps) == multiset(PairsOf(q)) by {
      assert forall p :: multiset(ps)[p] == multiset(PairsOf(q))[p];
    }
    SortedUnique(ps, PairsOf(q));
  }

  /** canonicalQuery.  The map is visited in any order, and the keys and each key's values are
      sorted before they are written. */
  method CanonicalQuery(values: Query) returns (b: Bytes)
    ensures b == Render(PairsOf(values))
  {
    if |values| == 0 {
      assert values.Keys == {};
      ListedOnce([], values);
      return [];
    }
    var keys := ListKeys(values);
    keys := Sort(keys);
    KeysListPairs(keys, values);
    b := WriteKeys(keys, values);
    ListedOnce(PairsFor(keys, values), values);
  }

  /** The outer loop of canonicalQuery. */
  method WriteKeys(keys: seq<Bytes>, values: Query) returns (b: Bytes)
    requires forall k :: k in keys ==> k in values
    ensures b == Render(PairsFor(keys, values))
  {
    b := [];
    var first := true;
    ghost var done: seq<Pair> := [];
    for i := 0 to |keys|
      invariant done == PairsFor(keys[..i], values) && b == Render(done) && first == (done == [])
    {
      var k := keys[i];
      var sorted := Sort(values[k]);
      PairsForOneMore(keys, values, i, sorted);
      b, first := WriteValues(b, first, k, sorted, done);
      done := done + PairList(k, sorted);
    }
    assert keys[..|keys|] == keys;
  }

  lemma PairsForOneMore(keys: seq<Bytes>, q: Query, i: nat, sorted: seq<Bytes>)
    requires (forall k :: k in keys ==> k in q) && i < |keys| && sorted == Sort(q[keys[i]])
    ensures PairsFor(keys[..i + 1], q) == PairsFor(keys[..i], q) + PairList(keys[i], sorted)
  {
    assert keys[..i + 1][..i] == keys[..i];
  }

  /** The inner loop of canonicalQuery: one key with its sorted values. */
  method WriteValues(b0: Bytes, first0: bool, k: Bytes, sorted: seq<Bytes>, ghost before: seq<Pair>)
    returns (b: Bytes, first: bool)
    requires b0 == Render(before) && first0 == (before == [])
    ensures b == Render(before + PairList(k, sorted)) && first == (before + PairList(k, sorted) == [])
  {
    b, first := b0, first0;
    var ek := PercentEncode(k);
    assert before + PairList(k, sorted[..0]) == before;
    for j := 0 to |sorted|
      invariant b == Render(before + PairList(k, sorted[..j])) && first == (before + PairList(k, sorted[..j]) == [])
    {
      ghost var done := before + PairList(k, sorted[..j]);
      RenderAppend(done, Pair(k, sorted[j]));
      PairListAppend(before, k, sorted, j);
      b := WritePair(b, first, ek, sorted[j]);
      first := false;
    }
    assert sorted[..|sorted|] == sorted;
  }

  lemma PairListAppend(before: seq<Pair>, k: Bytes, values: seq<Bytes>, j: nat)
    requires j < |values|
    ensures before + PairList(k, values[..j + 1]) == before + PairList(k, values[..j]) + [Pair(k, values[j])]
  {
  }

  method WritePair(b0: Bytes, first: bool, ek: Bytes, v: Bytes) returns (b: Bytes)
    ensures b == (if first then b0 else b0 + [AMPERSAND]) + (ek + [EQUALS] + Encode(v))
  {
    b := b0;
    if !first {
      b := b + [AMPERSAND];
    }
    ghost var front := b;
    b := b + ek;
    b := b + [EQUALS];
    var ev := PercentEncode(v);
    b := b + ev;
    Associate(front, ek, EQUALS, ev);
  }

  method ListKeys(values: Query) returns (keys: seq<Bytes>)
    ensures multiset(keys) == multiset(values.Keys)
  {
    keys := [];
    var rest := values.Keys;
    while rest != {}
      invariant multiset(keys) + multiset(rest) == multiset(values.Keys)
      decreases |rest|
    {
      var k :| k in rest;
      assert multiset(rest) == multiset(rest - {k}) + multiset{k};
      rest := rest - {k};
      keys := keys + [k];
    }
  }

  /** The canonical query identifies the query up to the order in which its values were given. */
  lemma SameCanonicalQuery(q: Query, q': Query)
    ensures Render(PairsOf(q)) == Render(PairsOf(q')) <==> SameQuery(q, q')
  {
    if Render(PairsOf(q)) == Render(PairsOf(q')) {
      RenderInjective(PairsOf(q), PairsOf(q'));
      assert forall p :: Count(q, p) == multiset(PairsOf(q))[p];
    }
    if SameQuery(q, q') {
      assert Lists(PairsOf(q), q');
      ListedOnce(PairsOf(q), q');
    }
  }

  // ---- the canonical request ----

  /** What a signature covers; the body enters through its digest. */
  datatype Request = Request(verb: Bytes, path: Bytes, query: Query, body: Bytes, timestamp: int, nonce: Bytes)

  type Digest = Bytes -> Bytes

  function Upper(s: Bytes): (r: Bytes)
    ensures |r| == |s|
    ensures NEWLINE in r <==> NEWLINE in s
  {
    if s == [] then []
    else
      assert s == [s[0]] + s[1..];
      [if 97 <= s[0] <= 122 then s[0] - 32 else s[0]] + Upper(s[1..])
  }

  function LowerHex(s: Bytes): Bytes {
    if s == [] then []
    else
      LowerHex(s[..|s| - 1]) + [HexDigit(s[|s| - 1] as int / 16, 97), HexDigit(s[|s| - 1] as int % 16, 97)]
  }

  /** hex.DecodeString: pairs of digits of either case. */
  function FromHex(s: Bytes): Option<Bytes> {
    var n := |s|;
    if n == 0 then Some([])
    else if n == 1 then None
    else
      match (FromHex(s[..n - 2]), HexValue(s[n - 2]), HexValue(s[n - 1]))
      case (Some(front), Some(hi), Some(lo)) => Some(front + [(hi * 16 + lo) as byte])
      case _ => None
  }

  lemma {:induction false} HexLength(s: Bytes)
    ensures NEWLINE !in LowerHex(s) && |LowerHex(s)| == 2 * |s|
  {
    if s != [] {
      HexLength(s[..|s| - 1]);
    }
  }

  lemma {:induction false} HexRoundTrip(s: Bytes)
    ensures FromHex(LowerHex(s)) == Some(s)
    ensures NEWLINE !in LowerHex(s) && |LowerHex(s)| == 2 * |s|
  {
    HexLength(s);
    if s != [] {
      var n := |s| - 1;
      HexRoundTrip(s[..n]);
      HexDigitValue(s[n] as int / 16, 97);
      HexDigitValue(s[n] as int % 16, 97);
      assert LowerHex(s)[..2 * n] == LowerHex(s[..n]);
      assert s == s[..n] + [s[n]];
    }
  }

  /** appendHex. */
  method AppendHex(dst: Bytes, src: Bytes) returns (r: Bytes)
    ensures r == dst + LowerHex(src)
  {
    r := dst;
    for i := 0 to |src|
      invariant r == dst + LowerHex(src[..i])
    {
      assert src[..i + 1][..i] == src[..i];
      var b := src[i];
      r := r + [HexDigit(b as int / 16, 97), HexDigit(b as int % 16, 97)];
    }
    assert src[..|src|] == src;
  }

  /** All the fields but the method and the nonce. */
  ghost function Middle(sha: Digest, r: Request): Bytes {
    r.path + [NEWLINE] + Render(PairsOf(r.query))
    + [NEWLINE] + LowerHex(sha(r.body)) + [NEWLINE] + FormatInt(r.timestamp)
  }

  ghost function Canonical(sha: Digest, r: Request): Bytes {
    Upper(r.verb) + [NEWLINE] + (Middle(sha, r) + [NEWLINE] + r.nonce)
  }

  /** canonicalRequest. */
  method CanonicalRequest(sha: Digest, r: Request) returns (out: Bytes)
    ensures out == Canonical(sha, r)
  {
    var bodyHash := sha(r.body);
    var q := CanonicalQuery(r.query);
    out := Upper(r.verb);
    out := out + [NEWLINE];
    ghost var front := out;
    out := WriteMiddle(sha, r, out, q, bodyHash);
    out := out + [NEWLINE];
    out := out + r.nonce;
    Associate(front, Middle(sha, r), NEWLINE, r.nonce);
  }

  /** Path, query, body digest and timestamp. */
  method WriteMiddle(ghost sha: Digest, r: Request, front: Bytes, q: Bytes, bodyHash: Bytes) returns (out: Bytes)
    requires q == Render(PairsOf(r.query)) && bodyHash == sha(r.body)
    ensures out == front + Middle(sha, r)
  {
    out := front + r.path;
    out := out + [NEWLINE];
    out := out + q;
    Associate(front, r.path, NEWLINE, q);
    out := out + [NEWLINE];
    out := AppendHex(out, bodyHash);
    Associate(front, r.path + [NEWLINE] + q, NEWLINE, LowerHex(bodyHash));
    out := out + [NEWLINE];
    out := out + FormatInt(r.timestamp);
    Associate(front, r.path + [NEWLINE] + q + [NEWLINE] + LowerHex(bodyHash), NEWLINE, FormatInt(r.timestamp));
  }

  ghost predicate SameSigned(sha: Digest, r: Request, r': Request) {
    && Upper(r.verb) == Upper(r'.verb)
    && r.path == r'.path
    && SameQuery(r.query, r'.query)
    && sha(r.body) == sha(r'.body)
    && r.timestamp == r'.timestamp
    && r.nonce == r'.nonce
  }

  /** The path may contain newlines, so it is found from the end: the fields after it are free of
      newlines. */
  lemma SplitMiddle(sha: Digest, r: Request, r': Request)
    requires Middle(sha, r) == Middle(sha, r')
    ensures r.path == r'.path && Render(PairsOf(r.query)) == Render(PairsOf(r'.query))
    ensures LowerHex(sha(r.body)) == LowerHex(sha(r'.body)) && r.timestamp == r'.timestamp
  {
    var q, h, t := Render(PairsOf(r.query)), LowerHex(sha(r.body)), FormatInt(r.timestamp);
    var q', h', t' := Render(PairsOf(r'.query)), LowerHex(sha(r'.body)), FormatInt(r'.timestamp);
    ParseFormat(r.timestamp);
    ParseFormat(r'.timestamp);
    HexRoundTrip(sha(r.body));
    HexRoundTrip(sha(r'.body));
    RenderAlphabet(PairsOf(r.query));
    RenderAlphabet(PairsOf(r'.query));
    var p, p' := r.path + [NEWLINE] + q, r'.path + [NEWLINE] + q';
    SplitBack(p + [NEWLINE] + h, t, p' + [NEWLINE] + h', t', NEWLINE);
    SplitBack(p, h, p', h', NEWLINE);
    SplitBack(r.path, q, r'.path, q', NEWLINE);
  }

  /** Two requests have the same canonical form exactly when everything that is signed agrees.
      Only method and nonce must be free of newlines; the path need not be. */
  lemma Unambiguous(sha: Digest, r: Request, r': Request)
    requires NEWLINE !in r.verb && NEWLINE !in r'.verb && NEWLINE !in r.nonce && NEWLINE !in r'.nonce
    ensures Canonical(sha, r) == Canonical(sha, r') <==> SameSigned(sha, r, r')
  {
    SameCanonicalQuery(r.query, r'.query);
    if Canonical(sha, r) == Canonical(sha, r') {
      SplitFirst(Upper(r.verb), Middle(sha, r) + [NEWLINE] + r.nonce,
                 Upper(r'.verb), Middle(sha, r') + [NEWLINE] + r'.nonce, NEWLINE);
      SplitBack(Middle(sha, r), r.nonce, Middle(sha, r'), r'.nonce, NEWLINE);
      SplitMiddle(sha, r, r');
      HexRoundTrip(sha(r.body));
      HexRoundTrip(sha(r'.body));
    }
  }

  lemma {:induction false} UpperConcat(a: Bytes, b: Bytes)
    ensures Upper(a + b) == Upper(a) + Upper(b)
  {
    if a == [] {
      assert a + b == b;
    } else {
      assert (a + b)[1..] == a[1..] + b;
      UpperConcat(a[1..], b);
    }
  }

  /** The restriction on the method is needed: whatever follows a newline in it might as well be
      the beginning of the path. */
  lemma NewlineInMethodIsAmbiguous(sha: Digest, a: Bytes, b: Bytes, r: Request)
    requires r.verb == a + [NEWLINE] + b
    ensures var r' := r.(verb := a, path := Upper(b) + [NEWLINE] + r.path);
            r'.path != r.path && Canonical(sha, r) == Canonical(sha, r')
  {
    var r' := r.(verb := a, path := Upper(b) + [NEWLINE] + r.path);
    assert |r'.path| > |r.path|;
    UpperConcat(a + [NEWLINE], b);
    UpperConcat(a, [NEWLINE]);
    assert Upper([NEWLINE]) == [NEWLINE];
    var rest := Middle(sha, r) + [NEWLINE] + r.nonce;
    PrependMiddle(sha, r, Upper(b));
    Associate(Upper(b) + [NEWLINE], Middle(sha, r), NEWLINE, r.nonce);
    Associate(Upper(a) + [NEWLINE], Upper(b), NEWLINE, rest);
  }

  /** So is the restriction on the nonce: a nonce that ends in the last fields of another request
      moves the fields before it into the path. */
  lemma NewlineInNonceIsAmbiguous(sha: Digest, r: Request, tail: Request)
    requires r.nonce == Middle(sha, tail) + [NEWLINE] + tail.nonce
    ensures var r' := tail.(verb := r.verb, path := Middle(sha, r) + [NEWLINE] + tail.path);
            r'.nonce != r.nonce && Canonical(sha, r) == Canonical(sha, r')
  {
    assert |r.nonce| > |tail.nonce|;
    PrependMiddle(sha, tail, Middle(sha, r));
    var r' := tail.(path := Middle(sha, r) + [NEWLINE] + tail.path);
    assert Middle(sha, r') == Middle(sha, r'.(verb := r.verb));
    Associate(Middle(sha, r) + [NEWLINE], Middle(sha, tail), NEWLINE, tail.nonce);
  }

  lemma PrependMiddle(sha: Digest, r: Request, front: Bytes)
    ensures Middle(sha, r.(path := front + [NEWLINE] + r.path)) == front + [NEWLINE] + Middle(sha, r)
  {
    var r' := r.(path := front + [NEWLINE] + r.path);
    var q, h, t := Render(PairsOf(r.query)), LowerHex(sha(r.body)), FormatInt(r.timestamp);
    Associate(front + [NEWLINE], r.path, NEWLINE, q);
    Associate(front + [NEWLINE], r.path + [NEWLINE] + q, NEWLINE, h);
    Associate(front + [NEWLINE], r.path + [NEWLINE] + q + [NEWLINE] + h, NEWLINE, t);
  }
}
