/** `sorted()` on file names: Python orders strings lexicographically by
    code point, a proper prefix first. */
module NameOrder {

  /** `a <= b` on Python strings. */
  predicate NameLeq(a: string, b: string) {
    a == [] || (b != [] && (a[0] < b[0] || (a[0] == b[0] && NameLeq(a[1..], b[1..]))))
  }

  lemma {:induction false} NameLeqReflexive(a: string)
    ensures NameLeq(a, a)
  {
    if a != [] {
      NameLeqReflexive(a[1..]);
    }
  }

  lemma {:induction false} NameLeqTotal(a: string, b: string)
    ensures NameLeq(a, b) || NameLeq(b, a)
  {
    if a != [] && b != [] && a[0] == b[0] {
      NameLeqTotal(a[1..], b[1..]);
    }
  }

  lemma {:induction false} NameLeqTransitive(a: string, b: string, c: string)
    requires NameLeq(a, b) && NameLeq(b, c)
    ensures NameLeq(a, c)
  {
    if a != [] && a[0] == b[0] && b[0] == c[0] {
      NameLeqTransitive(a[1..], b[1..], c[1..]);
    }
  }

  lemma {:induction false} NameLeqAntisymmetric(a: string, b: string)
    requires NameLeq(a, b) && NameLeq(b, a)
    ensures a == b
  {
    if a != [] {
      NameLeqAntisymmetric(a[1..], b[1..]);
      assert a == [a[0]] + a[1..] && b == [b[0]] + b[1..];
    }
  }

  predicate Sorted(names: seq<string>) {
    forall i, j :: 0 <= i < j < |names| ==> NameLeq(names[i], names[j])
  }

  /** Places `x` in a sorted sequence before the first name it does not follow. */
  function Insert(x: string, names: seq<string>): (r: seq<string>)
    requires Sorted(names)
    ensures Sorted(r)
    ensures multiset(r) == multiset(names) + multiset{x}
  {
    if names == [] then [x]
    else if NameLeq(x, names[0]) then
      var r := [x] + names;
      forall j | 0 < j < |r|
        ensures NameLeq(x, r[j])
      {
        if j > 1 { NameLeqTransitive(x, names[0], names[j - 1]); }
      }
      r
    else
      NameLeqTotal(x, names[0]);
      var rest := Insert(x, names[1..]);
      var r := [names[0]] + rest;
      assert names == [names[0]] + names[1..];
      forall j | 0 < j < |r|
        ensures NameLeq(names[0], r[j])
      {
        assert r[j] in multiset(rest);
      }
      r
  }

  /** `sorted(names)`: the same names, in ascending order. */
  function SortNames(names: seq<string>): (r: seq<string>)
    ensures Sorted(r)
    ensures multiset(r) == multiset(names)
  {
    if names == [] then []
    else
      assert names == [names[0]] + names[1..];
      Insert(names[0], SortNames(names[1..]))
  }

  /** A sorted arrangement of a collection of names is unique. */
  lemma {:induction false} SortedUnique(a: seq<string>, b: seq<string>)
    requires Sorted(a) && Sorted(b) && multiset(a) == multiset(b)
    ensures a == b
  {
    if a != [] {
      assert a[0] in multiset(b);
      assert b != [];
      SortedFirstIsLeast(a, b[0]);
      SortedFirstIsLeast(b, a[0]);
      NameLeqAntisymmetric(a[0], b[0]);
      MultisetOfTail(a);
      MultisetOfTail(b);
      SortedUnique(a[1..], b[1..]);
      assert a == [a[0]] + a[1..] && b == [b[0]] + b[1..];
    }
  }

  /** The first name of a sorted sequence comes before every name in it. */
  lemma SortedFirstIsLeast(a: seq<string>, x: string)
    requires Sorted(a) && x in multiset(a)
    ensures NameLeq(a[0], x)
  {
    var i :| 0 <= i < |a| && a[i] == x;
    if i == 0 {
      NameLeqReflexive(x);
    }
  }

  lemma MultisetOfTail(s: seq<string>)
    requires s != []
    ensures multiset(s[1..]) == multiset(s) - multiset{s[0]}
  {
    assert s == [s[0]] + s[1..];
  }
}
