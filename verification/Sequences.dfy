/** Lists without duplicates, and the removal of an element. */
module Sequences {
  predicate NoDup<T(==)>(s: seq<T>) {
    forall i, j :: 0 <= i < j < |s| ==> s[i] != s[j]
  }

  lemma NoDupCons<T>(s: seq<T>)
    requires s != []
    ensures NoDup(s) <==> s[0] !in s[1..] && NoDup(s[1..])
  {}

  /** `remove`: the first occurrence is spliced out. */
  function Removed<T(==)>(s: seq<T>, x: T): seq<T> {
    if s == [] then [] else if s[0] == x then s[1..] else [s[0]] + Removed(s[1..], x)
  }

  /** Without duplicates, exactly the element goes. */
  lemma {:induction false} RemovedOnce<T>(s: seq<T>, x: T)
    requires NoDup(s)
    ensures NoDup(Removed(s, x))
    ensures forall y :: y in Removed(s, x) <==> y in s && y != x
    ensures |Removed(s, x)| == if x in s then |s| - 1 else |s|
    ensures x !in s ==> Removed(s, x) == s
  {
    if s == [] {
    } else {
      NoDupCons(s);
      assert s == [s[0]] + s[1..];
      RemovedOnce(s[1..], x);
      if s[0] != x {
        var rest := Removed(s[1..], x);
        assert ([s[0]] + rest)[0] == s[0] && ([s[0]] + rest)[1..] == rest;
        NoDupCons([s[0]] + rest);
      }
    }
  }

  lemma {:induction false} RemovedConcat<T>(a: seq<T>, b: seq<T>, x: T)
    ensures Removed(a + b, x) == if x in a then Removed(a, x) + b else a + Removed(b, x)
  {
    if a == [] {
      assert a + b == b;
    } else {
      assert (a + b)[1..] == a[1..] + b;
      RemovedConcat(a[1..], b, x);
      assert x in a <==> x == a[0] || x in a[1..];
    }
  }

  lemma RemovedAt<T>(a: seq<T>, x: T, b: seq<T>)
    requires x !in a
    ensures Removed(a + [x] + b, x) == a + b
  {
    assert a + [x] + b == a + ([x] + b);
    RemovedConcat(a, [x] + b, x);
    assert ([x] + b)[1..] == b;
  }

  lemma {:induction false} RemovedAbsent<T>(s: seq<T>, x: T)
    requires x !in s
    ensures Removed(s, x) == s
  {
    if s == [] {
    } else {
      RemovedAbsent(s[1..], x);
    }
  }

  ghost function Ids(s: seq<nat>): set<nat> {
    set x | x in s
  }
}
