/** Names in the order sort.Strings puts them in. */
module Names {
  import Sequences

  predicate AtMost(a: string, b: string) {
    a == [] || (b != [] && (a[0] < b[0] || (a[0] == b[0] && AtMost(a[1..], b[1..]))))
  }

  lemma {:induction false} AtMostIsTotal(a: string, b: string)
    ensures AtMost(a, b) || AtMost(b, a)
  {
    if a != [] && b != [] && a[0] == b[0] {
      AtMostIsTotal(a[1..], b[1..]);
    }
  }

  lemma {:induction false} AtMostIsTransitive(a: string, b: string, c: string)
    requires AtMost(a, b) && AtMost(b, c)
    ensures AtMost(a, c)
  {
    if a != [] && b != [] && c != [] && a[0] == b[0] == c[0] {
      AtMostIsTransitive(a[1..], b[1..], c[1..]);
    }
  }

  lemma {:induction false} AtMostIsAntisymmetric(a: string, b: string)
    requires AtMost(a, b) && AtMost(b, a)
    ensures a == b
  {
    if a != [] {
      AtMostIsAntisymmetric(a[1..], b[1..]);
      assert a == [a[0]] + a[1..] && b == [b[0]] + b[1..];
    }
  }

  ghost predicate Ascending(names: seq<string>) {
    forall i, j :: 0 <= i < j < |names| ==> AtMost(names[i], names[j])
  }

  ghost predicate Distinct(names: seq<string>) {
    forall i, j :: 0 <= i < j < |names| ==> names[i] != names[j]
  }

  ghost predicate SameNames(a: seq<string>, b: seq<string>) {
    forall name :: name in a <==> name in b
  }

  function Insert(name: string, sorted: seq<string>): seq<string> {
    if sorted == [] || AtMost(name, sorted[0]) then [name] + sorted
    else [sorted[0]] + Insert(name, sorted[1..])
  }

  lemma {:induction false} InsertKeeps(name: string, sorted: seq<string>)
    ensures SameNames(Insert(name, sorted), [name] + sorted)
    ensures Distinct([name] + sorted) ==> Distinct(Insert(name, sorted))
  {
    if sorted != [] && !AtMost(name, sorted[0]) {
      var rest := sorted[1..];
      InsertKeeps(name, rest);
      assert sorted == [sorted[0]] + rest;
      if Distinct([name] + sorted) {
        DistinctCons(name, sorted);
        DistinctCons(sorted[0], rest);
        DistinctCons(name, rest);
        DistinctCons(sorted[0], Insert(name, rest));
      }
    }
  }

  lemma DistinctCons(name: string, names: seq<string>)
    ensures Distinct([name] + names) <==> name !in names && Distinct(names)
  {
    var longer := [name] + names;
    if Distinct(longer) {
      assert forall i :: 0 <= i < |names| ==> names[i] == longer[i + 1] && longer[0] != longer[i + 1];
    }
  }

  lemma {:induction false} InsertAscends(name: string, sorted: seq<string>)
    requires Ascending(sorted)
    ensures Ascending(Insert(name, sorted))
  {
    if sorted == [] {
    } else if AtMost(name, sorted[0]) {
      forall k | 0 <= k < |sorted|
        ensures AtMost(name, sorted[k])
      {
        if k > 0 {
          AtMostIsTransitive(name, sorted[0], sorted[k]);
        }
      }
    } else {
      var rest := Insert(name, sorted[1..]);
      AtMostIsTotal(name, sorted[0]);
      InsertAscends(name, sorted[1..]);
      InsertKeeps(name, sorted[1..]);
      forall k | 0 <= k < |rest|
        ensures AtMost(sorted[0], rest[k])
      {
        assert rest[k] in rest;
      }
    }
  }

  function Sorted(names: seq<string>): seq<string> {
    if names == [] then [] else Insert(names[0], Sorted(names[1..]))
  }

  lemma {:induction false} SortedSorts(names: seq<string>)
    ensures Ascending(Sorted(names)) && SameNames(Sorted(names), names)
    ensures Distinct(names) ==> Distinct(Sorted(names))
  {
    if names != [] {
      var rest := names[1..];
      SortedSorts(rest);
      InsertAscends(names[0], Sorted(rest));
      InsertKeeps(names[0], Sorted(rest));
      assert names == [names[0]] + rest;
      DistinctCons(names[0], rest);
      DistinctCons(names[0], Sorted(rest));
    }
  }

  /** There is one ascending listing of distinct names. */
  lemma {:induction false} SortedIsUnique(a: seq<string>, b: seq<string>)
    requires SameNames(a, b) && Distinct(a) && Distinct(b) && Ascending(a) && Ascending(b)
    ensures a == b
  {
    if a == [] {
      Sequences.FirstIsMember(b);
    } else {
      Sequences.FirstIsMember(b);
      assert a[0] in a && a[0] in b;
      LeastIsFirst(a, b[0]);
      LeastIsFirst(b, a[0]);
      AtMostIsAntisymmetric(a[0], b[0]);
      assert a == [a[0]] + a[1..] && b == [b[0]] + b[1..];
      DistinctCons(a[0], a[1..]);
      DistinctCons(b[0], b[1..]);
      TailNames(a);
      TailNames(b);
      SortedIsUnique(a[1..], b[1..]);
    }
  }

  lemma TailNames(names: seq<string>)
    requires names != []
    ensures forall name :: name in names <==> name == names[0] || name in names[1..]
  {
    assert names == [names[0]] + names[1..];
  }

  lemma LeastIsFirst(names: seq<string>, name: string)
    requires Ascending(names) && name in names
    ensures AtMost(names[0], name)
  {
    AtMostIsTotal(names[0], names[0]);
  }
}
