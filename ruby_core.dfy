/**
 * The behaviour of the Ruby core-library operations the adapter is built on:
 * `String#split('_')`, `Array#join('_')`, `String#to_i` on a run of digits,
 * regex search for a literal, `Enumerable#group_by(...).keys`, and a frozen
 * Hash literal read with `[]` or through `invert`.
 */
module RubyCore {
  import opened Wrappers

  // ---------------------------------------------------------------------
  // Characters and numbers

  /** Ruby's `\d` and `[0-9]`: ASCII decimal digits only. */
  predicate IsDigit(c: char) {
    '0' <= c <= '9'
  }

  predicate AllDigits(s: string) {
    forall i :: 0 <= i < |s| ==> IsDigit(s[i])
  }

  /** `to_i` of a string made of digits: the decimal number they spell, leading zeros allowed. */
  function DecimalValue(s: string): nat
    requires AllDigits(s)
  {
    if s == [] then 0 else 10 * DecimalValue(s[..|s| - 1]) + (s[|s| - 1] as int - '0' as int)
  }

  /** `sub` occurs in `s` starting at index `i`. */
  predicate OccursAt(s: string, sub: string, i: int) {
    0 <= i && i + |sub| <= |s| && s[i..i + |sub|] == sub
  }

  /** `s =~ /sub/` for a pattern without metacharacters: an occurrence anywhere in `s`. */
  predicate Contains(s: string, sub: string) {
    exists i | 0 <= i <= |s| :: OccursAt(s, sub, i)
  }

  /** A text without the first character of `sub` has no occurrence of `sub`. */
  lemma NotContainsWithoutFirstCharacter(s: string, sub: string)
    requires sub != "" && sub[0] !in s
    ensures !Contains(s, sub)
  {
    forall i | 0 <= i <= |s| ensures !OccursAt(s, sub, i) {
      if i + |sub| <= |s| {
        assert s[i..i + |sub|][0] == s[i];
      }
    }
  }

  // ---------------------------------------------------------------------
  // Exceptions

  /** A Ruby exception, as far as its message goes. */
  datatype NativeException = NativeException(message: string)

  /** The `NoMethodError` raised when the receiver has no method `name`; the receiver's description Ruby appends is left out. */
  function NoMethodError(name: string): NativeException {
    NativeException("undefined method '" + name + "'")
  }

  // ---------------------------------------------------------------------
  // String#split('_') and Array#join('_')

  /** `k` underscores. */
  function Underscores(k: nat): (u: string)
    ensures |u| == k && forall i :: 0 <= i < k ==> u[i] == '_'
  {
    seq(k, _ => '_')
  }

  /** `k` empty strings. */
  function Empties(k: nat): (e: seq<string>)
    ensures |e| == k && forall i :: 0 <= i < k ==> e[i] == ""
  {
    seq(k, _ => "")
  }

  /** Cutting `s` at every `_`, keeping every field, empty ones included. */
  function Fields(s: string): (fs: seq<string>)
    ensures |fs| >= 1
    ensures forall i :: 0 <= i < |fs| ==> '_' !in fs[i]
  {
    if s == [] then [""]
    else
      var rest := Fields(s[1..]);
      if s[0] == '_' then [""] + rest else [[s[0]] + rest[0]] + rest[1..]
  }

  /** Ruby removes trailing empty fields from the result of `split`. */
  function DropTrailingEmpty(fs: seq<string>): (r: seq<string>)
    ensures r <= fs
    ensures r == [] || r[|r| - 1] != ""
    ensures forall i :: |r| <= i < |fs| ==> fs[i] == ""
  {
    if fs == [] then []
    else if fs[|fs| - 1] == "" then DropTrailingEmpty(fs[..|fs| - 1])
    else fs
  }

  /** `s.split('_')`: leading and inner empty fields are kept, trailing ones dropped, so `"".split('_') == []`. */
  function Split(s: string): (fs: seq<string>)
    ensures forall i :: 0 <= i < |fs| ==> '_' !in fs[i]
    ensures fs == [] || fs[|fs| - 1] != ""
  {
    DropTrailingEmpty(Fields(s))
  }

  /** `fs.join('_')`. */
  function Join(fs: seq<string>): string {
    if fs == [] then "" else if |fs| == 1 then fs[0] else fs[0] + "_" + Join(fs[1..])
  }

  lemma {:induction false} JoinFields(s: string)
    ensures Join(Fields(s)) == s
  {
    if s != [] {
      JoinFields(s[1..]);
      var rest := Fields(s[1..]);
      if s[0] == '_' {
        assert Fields(s) == [""] + rest;
        assert ([""] + rest)[1..] == rest;
        assert s == "_" + s[1..];
      } else {
        var head := [s[0]] + rest[0];
        assert Fields(s) == [head] + rest[1..];
        if |rest| == 1 {
          assert [head] + rest[1..] == [head];
        } else {
          assert ([head] + rest[1..])[1..] == rest[1..];
          assert s == [s[0]] + s[1..];
        }
      }
    }
  }

  lemma {:induction false} JoinAppend(a: seq<string>, b: seq<string>)
    requires a != [] && b != []
    ensures Join(a + b) == Join(a) + "_" + Join(b)
  {
    assert (a + b)[0] == a[0];
    if |a| == 1 {
      assert (a + b)[1..] == b;
    } else {
      assert (a + b)[1..] == a[1..] + b;
      JoinAppend(a[1..], b);
    }
  }

  lemma {:induction false} JoinEmpties(fs: seq<string>, k: nat)
    requires fs != []
    ensures Join(fs + Empties(k)) == Join(fs) + Underscores(k)
  {
    if k > 0 {
      JoinEmpties(fs, k - 1);
      assert fs + Empties(k) == (fs + Empties(k - 1)) + [""];
      JoinAppend(fs + Empties(k - 1), [""]);
      assert Underscores(k) == Underscores(k - 1) + "_";
    } else {
      assert fs + Empties(0) == fs;
    }
  }

  lemma {:induction false} FieldsOfSeparated(p: string, q: string)
    ensures Fields(p + "_" + q) == Fields(p) + Fields(q)
  {
    if p == [] {
      assert p + "_" + q == "_" + q;
      assert ("_" + q)[1..] == q;
    } else {
      var s := p + "_" + q;
      assert s[0] == p[0];
      assert s[1..] == p[1..] + "_" + q;
      FieldsOfSeparated(p[1..], q);
    }
  }

  lemma {:induction false} FieldsOfPlain(q: string)
    requires '_' !in q
    ensures Fields(q) == [q]
  {
    if q != [] {
      FieldsOfPlain(q[1..]);
      assert q == [q[0]] + q[1..];
    }
  }

  lemma {:induction false} FieldsOfUnderscores(k: nat)
    ensures Fields(Underscores(k)) == Empties(k + 1)
  {
    if k > 0 {
      FieldsOfUnderscores(k - 1);
      assert Underscores(k)[1..] == Underscores(k - 1);
      assert Empties(k + 1) == [""] + Empties(k);
    }
  }

  lemma {:induction false} DropEmpties(fs: seq<string>, k: nat)
    requires fs == [] || fs[|fs| - 1] != ""
    ensures DropTrailingEmpty(fs + Empties(k)) == fs
  {
    if k > 0 {
      assert (fs + Empties(k))[..|fs| + k - 1] == fs + Empties(k - 1);
      DropEmpties(fs, k - 1);
    } else {
      assert fs + Empties(0) == fs;
    }
  }

  /** A plain field followed by `k` underscores cuts into that field and `k` empty ones. */
  lemma FieldsOfTail(d: string, k: nat)
    requires '_' !in d
    ensures Fields(d + Underscores(k)) == [d] + Empties(k)
  {
    FieldsOfPlain(d);
    if k > 0 {
      assert d + Underscores(k) == d + "_" + Underscores(k - 1);
      FieldsOfSeparated(d, Underscores(k - 1));
      FieldsOfUnderscores(k - 1);
    } else {
      assert d + Underscores(k) == d;
    }
  }

  /** A name whose last `_`-field is `d`, possibly followed by underscores, splits into the fields of its head and `d`. */
  lemma SplitOfSuffixed(p: string, d: string, k: nat)
    requires d != "" && '_' !in d
    ensures Split(p + "_" + d + Underscores(k)) == Fields(p) + [d]
  {
    var tail := d + Underscores(k);
    assert p + "_" + d + Underscores(k) == p + "_" + tail;
    FieldsOfSeparated(p, tail);
    FieldsOfTail(d, k);
    assert Fields(p) + ([d] + Empties(k)) == (Fields(p) + [d]) + Empties(k);
    DropEmpties(Fields(p) + [d], k);
  }

  lemma FieldsAreSplitThenEmpties(s: string)
    ensures Fields(s) == Split(s) + Empties(|Fields(s)| - |Split(s)|)
  {
    var all, fs := Fields(s), Split(s);
    var e := Empties(|all| - |fs|);
    assert |all| == |fs + e|;
    forall i | 0 <= i < |all| ensures all[i] == (fs + e)[i] {
      if i < |fs| {
        assert fs <= all;
      }
    }
  }

  /** Joining the split fields back and appending the dropped underscores gives `s`. */
  lemma SplitJoinsBack(s: string)
    requires Split(s) != []
    ensures s == Join(Split(s)) + Underscores(|Fields(s)| - |Split(s)|)
  {
    FieldsAreSplitThenEmpties(s);
    JoinFields(s);
    JoinEmpties(Split(s), |Fields(s)| - |Split(s)|);
  }

  lemma {:induction false} JoinInitLast(fs: seq<string>)
    requires |fs| >= 2
    ensures Join(fs) == Join(fs[..|fs| - 1]) + "_" + fs[|fs| - 1]
  {
    assert fs == fs[..|fs| - 1] + [fs[|fs| - 1]];
    JoinAppend(fs[..|fs| - 1], [fs[|fs| - 1]]);
  }

  /** What `split` drops can be recovered: the fields joined back and the trailing underscores give `s`. */
  lemma SplitRecovers(s: string)
    requires |Split(s)| >= 2
    ensures var fs := Split(s);
      s == Join(fs[..|fs| - 1]) + "_" + fs[|fs| - 1] + Underscores(|Fields(s)| - |fs|)
  {
    SplitJoinsBack(s);
    JoinInitLast(Split(s));
  }

  // ---------------------------------------------------------------------
  // Enumerable#group_by(...).keys and Enumerable#find

  predicate NoDuplicates<T(==)>(s: seq<T>) {
    forall i, j :: 0 <= i < j < |s| ==> s[i] != s[j]
  }

  /** The index of the first occurrence of `x` in `s`. */
  function FirstIndex<T(==)>(s: seq<T>, x: T): (i: nat)
    requires x in s
    ensures i < |s| && s[i] == x && x !in s[..i]
  {
    if x in s[..|s| - 1] then FirstIndex(s[..|s| - 1], x) else |s| - 1
  }

  /** `s.group_by { ... }.keys` once `s` holds the group keys: the distinct elements, in order of first occurrence. */
  function Distinct<T(==)>(s: seq<T>): (r: seq<T>)
    ensures NoDuplicates(r)
    ensures forall i :: 0 <= i < |r| ==> r[i] in s
    ensures forall i :: 0 <= i < |s| ==> s[i] in r
    ensures |r| <= |s|
  {
    if s == [] then []
    else
      var d := Distinct(s[..|s| - 1]);
      if s[|s| - 1] in d then d else d + [s[|s| - 1]]
  }

  /** The elements of `r`, all taken from `s`, come in the order of their first occurrence in `s`. */
  predicate InFirstOccurrenceOrder<T(==)>(r: seq<T>, s: seq<T>) {
    (forall i :: 0 <= i < |r| ==> r[i] in s) &&
    forall i, j :: 0 <= i < j < |r| ==> FirstIndex(s, r[i]) < FirstIndex(s, r[j])
  }

  lemma {:induction false} DistinctKeepsFirstOccurrenceOrder<T>(s: seq<T>)
    ensures InFirstOccurrenceOrder(Distinct(s), s)
  {
    if s != [] {
      var init, x := s[..|s| - 1], s[|s| - 1];
      DistinctKeepsFirstOccurrenceOrder(init);
      var d := Distinct(init);
      var r := Distinct(s);
      assert r == if x in d then d else d + [x];
      forall i, j | 0 <= i < j < |r| ensures FirstIndex(s, r[i]) < FirstIndex(s, r[j]) {
        assert r[i] == d[i] && d[i] in init;
        assert FirstIndex(s, r[i]) == FirstIndex(init, d[i]);
        if j < |d| {
          assert r[j] == d[j] && d[j] in init;
          assert FirstIndex(s, r[j]) == FirstIndex(init, d[j]);
          assert InFirstOccurrenceOrder(d, init);
        } else {
          assert r[j] == x && x !in init;
          assert FirstIndex(s, r[j]) == |s| - 1;
          assert FirstIndex(init, d[i]) < |init|;
        }
      }
    }
  }

  // ---------------------------------------------------------------------
  // A frozen Hash literal: an ordered list of entries with distinct keys

  predicate DistinctKeys<K(==), V>(h: seq<(K, V)>) {
    forall i, j :: 0 <= i < j < |h| ==> h[i].0 != h[j].0
  }

  predicate DistinctValues<K, V(==)>(h: seq<(K, V)>) {
    forall i, j :: 0 <= i < j < |h| ==> h[i].1 != h[j].1
  }

  /** `h[k]`: the value of the entry with key `k`, or nil. */
  function HashGet<K(==), V(==)>(h: seq<(K, V)>, k: K): (r: Option<V>)
    ensures r.None? <==> forall i :: 0 <= i < |h| ==> h[i].0 != k
    ensures r.Some? ==> exists i :: 0 <= i < |h| && h[i] == (k, r.value)
  {
    if h == [] then None
    else if h[0].0 == k then Some(h[0].1)
    else
      var r := HashGet(h[1..], k);
      assert forall i :: 1 <= i < |h| ==> h[i] == h[1..][i - 1];
      r
  }

  /** `h.invert[v]`: `invert` keeps, for each value, the last key that has it. */
  function HashInvertGet<K(==), V(==)>(h: seq<(K, V)>, v: V): (r: Option<K>)
    ensures r.None? <==> forall i :: 0 <= i < |h| ==> h[i].1 != v
    ensures r.Some? ==> exists i :: 0 <= i < |h| && h[i] == (r.value, v)
  {
    if h == [] then None
    else if h[|h| - 1].1 == v then Some(h[|h| - 1].0)
    else HashInvertGet(h[..|h| - 1], v)
  }

  /** With distinct keys and distinct values, reading through `invert` undoes reading by key, both ways. */
  lemma HashInvertRoundTrip<K, V>(h: seq<(K, V)>, k: K, v: V)
    requires DistinctKeys(h) && DistinctValues(h)
    ensures HashGet(h, k) == Some(v) <==> HashInvertGet(h, v) == Some(k)
  {
    if HashGet(h, k) == Some(v) {
      var i :| 0 <= i < |h| && h[i] == (k, v);
      var r := HashInvertGet(h, v);
      assert r.Some?;
      var j :| 0 <= j < |h| && h[j] == (r.value, v);
      assert i == j;
    }
    if HashInvertGet(h, v) == Some(k) {
      var i :| 0 <= i < |h| && h[i] == (k, v);
      var r := HashGet(h, k);
      assert r.Some?;
      var j :| 0 <= j < |h| && h[j] == (k, r.value);
      assert i == j;
    }
  }

  /** With distinct keys, reading an entry's key gives that entry's value. */
  lemma HashGetOfEntry<K, V>(h: seq<(K, V)>, i: int)
    requires DistinctKeys(h) && 0 <= i < |h|
    ensures HashGet(h, h[i].0) == Some(h[i].1)
  {
    var r := HashGet(h, h[i].0);
    assert r.Some?;
    var j :| 0 <= j < |h| && h[j] == (h[i].0, r.value);
    assert i == j;
  }
}
