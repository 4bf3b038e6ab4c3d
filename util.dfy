/** Generic sequence, map and string helpers that stand for Python built-ins
    used by the inventory engine: `filter`, dictionary comprehensions whose
    rewritten keys may collide, `str.split`, `str(n)` and `int(s)`. */
module Util {

  datatype Option<+T> = None | Some(value: T)

  predicate Distinct<T(==)>(s: seq<T>) {
    forall i, j :: 0 <= i < j < |s| ==> s[i] != s[j]
  }

  /** Position of the first occurrence of `x` in `s`. */
  function IndexOf<T(==)>(s: seq<T>, x: T): (i: nat)
    requires x in s
    ensures i < |s| && s[i] == x
    ensures forall j :: 0 <= j < i ==> s[j] != x
  {
    if s[0] == x then 0 else 1 + IndexOf(s[1..], x)
  }

  /** `r` lists its elements in the order they have in `s`. */
  predicate InOrderOf<T(==)>(r: seq<T>, s: seq<T>) {
    forall i, j :: 0 <= i < j < |r| ==> r[i] in s && r[j] in s && IndexOf(s, r[i]) < IndexOf(s, r[j])
  }

  /** The prefix of length `i + 1` extends the prefix of length `i` by `s[i]`. */
  lemma PrefixStep<T>(s: seq<T>, i: nat)
    requires i < |s|
    ensures s[..i + 1][..i] == s[..i] && s[..i + 1][i] == s[i]
  {
  }

  /** Python 2's `filter(p, s)`, which returns a list. */
  function Filter<T>(s: seq<T>, p: T -> bool): (r: seq<T>)
    ensures |r| <= |s|
    ensures forall i :: 0 <= i < |r| ==> p(r[i])
    ensures forall i :: 0 <= i < |s| && p(s[i]) ==> s[i] in r
    ensures forall i :: 0 <= i < |r| ==> r[i] in s
  {
    if s == [] then []
    else (if p(s[0]) then [s[0]] else []) + Filter(s[1..], p)
  }

  lemma {:induction false} FilterSnoc<T>(s: seq<T>, x: T, p: T -> bool)
    ensures Filter(s + [x], p) == Filter(s, p) + (if p(x) then [x] else [])
    decreases |s|
  {
    if s == [] {
      assert [x][1..] == [];
    } else {
      assert (s + [x])[1..] == s[1..] + [x];
      FilterSnoc(s[1..], x, p);
    }
  }

  /** The head of a non-empty filter result is the first element of `s` that passes. */
  lemma {:induction false} FilterHead<T>(s: seq<T>, p: T -> bool)
    ensures |Filter(s, p)| == 0 <==> forall i :: 0 <= i < |s| ==> !p(s[i])
    ensures |Filter(s, p)| > 0 ==>
      exists i :: 0 <= i < |s| && s[i] == Filter(s, p)[0] && p(s[i]) && forall j :: 0 <= j < i ==> !p(s[j])
    decreases |s|
  {
    if s != [] && !p(s[0]) {
      var t := s[1..];
      FilterHead(t, p);
      assert Filter(s, p) == Filter(t, p);
      assert forall i :: 0 <= i < |t| ==> t[i] == s[i + 1];
      if |Filter(s, p)| > 0 {
        var i :| 0 <= i < |t| && t[i] == Filter(t, p)[0] && p(t[i]) && forall j :: 0 <= j < i ==> !p(t[j]);
        forall j | 0 <= j < i + 1
          ensures !p(s[j])
        {
          if j > 0 {
            assert s[j] == t[j - 1];
          }
        }
        assert s[i + 1] == Filter(s, p)[0];
      }
    } else if s != [] {
      assert Filter(s, p)[0] == s[0];
    }
  }

  lemma IndexOfTail<T>(s: seq<T>, x: T)
    requires Distinct(s) && |s| > 0 && x in s[1..]
    ensures x != s[0] && IndexOf(s, x) == 1 + IndexOf(s[1..], x)
  {
    var k :| 0 <= k < |s[1..]| && s[1..][k] == x;
    assert s[k + 1] == x;
  }

  /** On a list without repetitions, `filter` introduces none. */
  lemma {:induction false} FilterDistinct<T>(s: seq<T>, p: T -> bool)
    requires Distinct(s)
    ensures Distinct(Filter(s, p))
    decreases |s|
  {
    if s != [] {
      var t := s[1..];
      assert Distinct(t);
      FilterDistinct(t, p);
      if p(s[0]) {
        var rt := Filter(t, p);
        assert Filter(s, p) == [s[0]] + rt;
        assert s[0] !in t;
        assert s[0] !in rt;
      } else {
        assert Filter(s, p) == Filter(t, p);
      }
    }
  }

  /** A list in the order of the tail of `s` is in the order of `s`, also
      after `s[0]` is put in front of it. */
  lemma InOrderCons<T>(s: seq<T>, r: seq<T>)
    requires Distinct(s) && |s| > 0 && InOrderOf(r, s[1..])
    requires forall j :: 0 <= j < |r| ==> r[j] in s[1..]
    ensures InOrderOf(r, s) && InOrderOf([s[0]] + r, s)
  {
    var t := s[1..];
    forall j | 0 <= j < |r|
      ensures r[j] in s && IndexOf(s, r[j]) == 1 + IndexOf(t, r[j])
    {
      IndexOfTail(s, r[j]);
    }
    var c := [s[0]] + r;
    forall i, j | 0 <= i < j < |c|
      ensures c[i] in s && c[j] in s && IndexOf(s, c[i]) < IndexOf(s, c[j])
    {
      assert c[j] == r[j - 1];
      if i > 0 {
        assert c[i] == r[i - 1];
      }
    }
  }

  /** `filter` keeps the order of a list without repetitions. */
  lemma {:induction false} FilterInOrder<T>(s: seq<T>, p: T -> bool)
    requires Distinct(s)
    ensures InOrderOf(Filter(s, p), s)
    decreases |s|
  {
    if s != [] {
      var t := s[1..];
      assert Distinct(t);
      FilterInOrder(t, p);
      InOrderCons(s, Filter(t, p));
      assert Filter(s, p) == (if p(s[0]) then [s[0]] else []) + Filter(t, p);
      if !p(s[0]) {
        assert Filter(s, p) == Filter(t, p);
      }
    }
  }

  /** On a list without repetitions, `filter` keeps the order and introduces none. */
  lemma FilterOrdered<T>(s: seq<T>, p: T -> bool)
    requires Distinct(s)
    ensures Distinct(Filter(s, p)) && InOrderOf(Filter(s, p), s)
  {
    FilterDistinct(s, p);
    FilterInOrder(s, p);
  }

  /** Order is transitive: a list in the order of `s`, whose elements `s` holds,
      is in the order of any list `t` that `s` is in the order of. */
  lemma InOrderTrans<T>(r: seq<T>, s: seq<T>, t: seq<T>)
    requires InOrderOf(r, s) && InOrderOf(s, t)
    requires forall i :: 0 <= i < |r| ==> r[i] in s
    ensures InOrderOf(r, t)
  {
    // Membership is stated per index: a fact about pairs would only be used where both indices occur.
    forall i | 0 <= i < |r| && 1 < |r|
      ensures r[i] in t
    {
      var k := if i == 0 then 1 else 0;
      assert IndexOf(s, r[i]) != IndexOf(s, r[k]);
      assert s[IndexOf(s, r[i])] in t;
    }
    forall i, j | 0 <= i < j < |r|
      ensures IndexOf(t, r[i]) < IndexOf(t, r[j])
    {
      var p, q := IndexOf(s, r[i]), IndexOf(s, r[j]);
      assert p < q && s[p] == r[i] && s[q] == r[j];
      assert IndexOf(t, s[p]) < IndexOf(t, s[q]);
    }
  }

  /** The dictionary comprehension `{rename(k): m[k] for k in keys if keep(k)}`:
      keys are visited in order, so when two of them are renamed alike the later wins. */
  function Rekeyed<V>(keys: seq<string>, m: map<string, V>, keep: string -> bool, rename: string -> string): (r: map<string, V>)
    requires forall k :: k in keys ==> k in m
    ensures r.Keys == set k | k in keys && keep(k) :: rename(k)
    decreases |keys|
  {
    if keys == [] then map[]
    else
      var k := keys[|keys| - 1];
      var r := Rekeyed(keys[..|keys| - 1], m, keep, rename);
      assert forall x :: x in keys <==> x in keys[..|keys| - 1] || x == k;
      if keep(k) then r[rename(k) := m[k]] else r
  }

  /** The later writer wins: a kept key that no later kept key is renamed onto
      gives its value to its renamed key. */
  lemma {:induction false} RekeyedLast<V>(keys: seq<string>, m: map<string, V>, keep: string -> bool, rename: string -> string, i: nat)
    requires forall k :: k in keys ==> k in m
    requires i < |keys| && keep(keys[i])
    requires forall j :: i < j < |keys| && keep(keys[j]) ==> rename(keys[j]) != rename(keys[i])
    ensures rename(keys[i]) in Rekeyed(keys, m, keep, rename)
    ensures Rekeyed(keys, m, keep, rename)[rename(keys[i])] == m[keys[i]]
    decreases |keys|
  {
    var n := |keys| - 1;
    var pre := keys[..n];
    assert forall k :: k in pre ==> k in keys;
    if i < n {
      assert pre[i] == keys[i];
      assert forall j :: i < j < |pre| ==> pre[j] == keys[j];
      RekeyedLast(pre, m, keep, rename, i);
    }
  }

  /** Python's `s.split(sep)`: never empty, and the separators are dropped. */
  function Split(s: string, sep: char): (r: seq<string>)
    ensures |r| >= 1
    ensures forall i :: 0 <= i < |r| ==> sep !in r[i]
    decreases |s|
  {
    if sep !in s then [s]
    else
      var i := IndexOf(s, sep);
      assert sep !in s[..i];
      [s[..i]] + Split(s[i + 1..], sep)
  }

  /** Python's `sep.join(parts)`. */
  function Join(parts: seq<string>, sep: char): string
    requires |parts| >= 1
    decreases |parts|
  {
    if |parts| == 1 then parts[0] else parts[0] + [sep] + Join(parts[1..], sep)
  }

  /** Splitting loses nothing: joining the pieces back gives the original string. */
  lemma {:induction false} SplitJoin(s: string, sep: char)
    ensures Join(Split(s, sep), sep) == s
    decreases |s|
  {
    if sep in s {
      var i := IndexOf(s, sep);
      var rest := Split(s[i + 1..], sep);
      assert Split(s, sep) == [s[..i]] + rest;
      SplitJoin(s[i + 1..], sep);
      assert Join([s[..i]] + rest, sep) == s[..i] + [sep] + Join(rest, sep) by {
        assert ([s[..i]] + rest)[1..] == rest;
      }
      assert s == s[..i] + [sep] + s[i + 1..];
    }
  }

  predicate IsDigit(c: char) {
    '0' <= c <= '9'
  }

  /** A string Python's `int()` reads as a count: one or more ASCII digits. */
  predicate IsDecimal(s: string) {
    |s| > 0 && forall i :: 0 <= i < |s| ==> IsDigit(s[i])
  }

  /** `int(s)` for a string of digits. */
  function DecimalValue(s: string): nat
    requires forall i :: 0 <= i < |s| ==> IsDigit(s[i])
    decreases |s|
  {
    if s == [] then 0
    else
      var last := s[|s| - 1];
      assert IsDigit(last);
      DecimalValue(s[..|s| - 1]) * 10 + (last as int - '0' as int)
  }

  function DigitChar(d: nat): (c: char)
    requires d < 10
    ensures IsDigit(c) && c as int - '0' as int == d
  {
    ('0' as int + d) as char
  }

  /** `str(n)` (and `'%s' % n`) for a natural number: no sign, no leading zero. */
  function NatToString(n: nat): (s: string)
    ensures IsDecimal(s)
    ensures |s| > 1 ==> s[0] != '0'
    decreases n
  {
    if n < 10 then [DigitChar(n)] else NatToString(n / 10) + [DigitChar(n % 10)]
  }

  /** `int(str(n)) == n`. */
  lemma {:induction false} DecimalRoundTrip(n: nat)
    ensures DecimalValue(NatToString(n)) == n
    decreases n
  {
    var s := NatToString(n);
    if n >= 10 {
      DecimalRoundTrip(n / 10);
      assert s[..|s| - 1] == NatToString(n / 10);
    } else {
      assert s[..0] == [];
    }
  }

  /** `n` copies of `x`. */
  function Repeat<T>(x: T, n: nat): (r: seq<T>)
    ensures |r| == n
    ensures forall i :: 0 <= i < n ==> r[i] == x
  {
    seq(n, _ => x)
  }

  /** Number of occurrences of `x` in `s`. */
  function Occurrences<T(==)>(s: seq<T>, x: T): (n: nat)
    ensures n <= |s|
    ensures n == 0 <==> x !in s
  {
    if s == [] then 0 else (if s[0] == x then 1 else 0) + Occurrences(s[1..], x)
  }

  lemma {:induction false} OccurrencesSnoc<T>(s: seq<T>, x: T, y: T)
    ensures Occurrences(s + [x], y) == Occurrences(s, y) + (if x == y then 1 else 0)
    decreases |s|
  {
    if s == [] {
      assert [x][1..] == [];
    } else {
      assert (s + [x])[1..] == s[1..] + [x];
      OccurrencesSnoc(s[1..], x, y);
    }
  }

  /** `m[ks[i]] = vs[i]` for each `i` in turn. */
  function Assign<K, V>(m: map<K, V>, ks: seq<K>, vs: seq<V>): map<K, V>
    requires |ks| == |vs|
    decreases |ks|
  {
    if ks == [] then m
    else
      var n := |ks| - 1;
      Assign(m, ks[..n], vs[..n])[ks[n] := vs[n]]
  }

  /** The last assignment comes last. */
  lemma AssignSnoc<K, V>(m: map<K, V>, ks: seq<K>, vs: seq<V>)
    requires |ks| == |vs| && ks != []
    ensures Assign(m, ks, vs) == Assign(m, ks[..|ks| - 1], vs[..|ks| - 1])[ks[|ks| - 1] := vs[|ks| - 1]]
  {
  }

  /** Assigning adds exactly the given keys. */
  lemma {:induction false} AssignKeys<K, V>(m: map<K, V>, ks: seq<K>, vs: seq<V>, k: K)
    requires |ks| == |vs|
    ensures k in Assign(m, ks, vs) <==> k in m || k in ks
    decreases |ks|
  {
    if ks != [] {
      var n := |ks| - 1;
      assert forall x :: x in ks <==> x in ks[..n] || x == ks[n];
      AssignKeys(m, ks[..n], vs[..n], k);
    }
  }

  /** Assigning leaves the other keys alone. */
  lemma {:induction false} AssignOthers<K, V>(m: map<K, V>, ks: seq<K>, vs: seq<V>, k: K)
    requires |ks| == |vs| && k in m && k !in ks
    ensures k in Assign(m, ks, vs) && Assign(m, ks, vs)[k] == m[k]
    decreases |ks|
  {
    if ks != [] {
      var n := |ks| - 1;
      assert ks[..n] <= ks;
      AssignOthers(m, ks[..n], vs[..n], k);
    }
  }

  /** The last value assigned to a key wins. */
  lemma {:induction false} AssignLast<K, V>(m: map<K, V>, ks: seq<K>, vs: seq<V>, i: nat)
    requires |ks| == |vs| && i < |ks|
    requires forall j :: i < j < |ks| ==> ks[j] != ks[i]
    ensures ks[i] in Assign(m, ks, vs) && Assign(m, ks, vs)[ks[i]] == vs[i]
    decreases |ks|
  {
    var n := |ks| - 1;
    if i < n {
      AssignLast(m, ks[..n], vs[..n], i);
    }
  }

  /** A filter every element passes keeps the sequence. */
  lemma {:induction false} FilterAll<T>(s: seq<T>, p: T -> bool)
    requires forall i :: 0 <= i < |s| ==> p(s[i])
    ensures Filter(s, p) == s
    decreases |s|
  {
    if s != [] {
      FilterAll(s[1..], p);
    }
  }
}
