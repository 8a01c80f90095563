// Small vocabulary shared by the other modules: optional values, possibly infinite
// distances, and sequences used as insertion-ordered sets.
module Basics {

  datatype Option<T> = None | Some(value: T)

  // A distance as the program initialises it: a number of kilometres or Infinity.
  datatype Km = Finite(km: real) | Infinity

  predicate Less(a: Km, b: Km) {
    a.Finite? && (b.Infinity? || a.km < b.km)
  }

  // The lookup `m.get(k) ?? Infinity`.
  function GetKm(m: map<int, real>, k: int): Km {
    if k in m then Finite(m[k]) else Infinity
  }

  ghost predicate Distinct<T(!new)>(s: seq<T>) {
    forall i, j :: 0 <= i < j < |s| ==> s[i] != s[j]
  }

  function Elements<T(==)>(s: seq<T>): set<T> {
    set x | x in s
  }

  lemma ElementsAppend<T>(s: seq<T>, x: T)
    ensures Elements(s + [x]) == Elements(s) + {x}
  {
  }

  lemma DistinctAppend(s: seq<int>, x: int)
    requires Distinct(s) && x !in s
    ensures Distinct(s + [x])
  {
  }

  // Set.delete on an insertion-ordered set.
  function Without(s: seq<int>, x: int): (r: seq<int>)
    ensures forall y :: y in r <==> y in s && y != x
  {
    if s == [] then []
    else if s[0] == x then Without(s[1..], x)
    else [s[0]] + Without(s[1..], x)
  }

  lemma {:induction false} WithoutDistinct(s: seq<int>, x: int)
    requires Distinct(s)
    ensures Distinct(Without(s, x))
  {
    if s != [] {
      WithoutDistinct(s[1..], x);
      assert s[0] !in s[1..];
      var r := Without(s[1..], x);
      assert s[0] !in r;
      assert forall j :: 0 <= j < |r| ==> r[j] in r;
    }
  }

  // Set.add on an insertion-ordered set.
  function Adding(s: seq<int>, x: int): seq<int> {
    if x in s then s else s + [x]
  }

  lemma DistinctBound(s: seq<int>, bound: set<int>)
    requires Distinct(s) && forall x :: x in s ==> x in bound
    ensures |s| <= |bound|
  {
    if s != [] {
      var n := |s| - 1;
      assert forall x :: x in s[..n] ==> x in bound - {s[n]};
      DistinctBound(s[..n], bound - {s[n]});
    }
  }
}
