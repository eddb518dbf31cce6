/** Concatenation, applying a function to every element of a sequence, and what
    reordering the sequence does to the result. */
module Sequences {
  lemma ConcatIsAssociative<T>(a: seq<T>, b: seq<T>, c: seq<T>)
    ensures (a + b) + c == a + (b + c)
  {
  }

  lemma FirstIsMember<T>(s: seq<T>)
    ensures s != [] ==> s[0] in s
  {
  }

  function Mapped<A, B>(f: A -> B, xs: seq<A>): (ys: seq<B>)
    ensures |ys| == |xs|
  {
    if xs == [] then [] else Mapped(f, xs[..|xs| - 1]) + [f(xs[|xs| - 1])]
  }

  lemma {:induction false} MappedAt<A, B>(f: A -> B, xs: seq<A>, i: nat)
    requires i < |xs|
    ensures Mapped(f, xs)[i] == f(xs[i])
  {
    if i < |xs| - 1 {
      MappedAt(f, xs[..|xs| - 1], i);
    }
  }

  lemma RemoveOne<T>(values: seq<T>, i: nat)
    requires i < |values|
    ensures multiset(values) == multiset(values[..i] + values[i + 1..]) + multiset{values[i]}
  {
    assert values == values[..i] + [values[i]] + values[i + 1..];
  }

  // Taking the last element of `a` out of a reordering of `a`.
  lemma TakeLast<T>(a: seq<T>, b: seq<T>) returns (i: nat)
    requires multiset(a) == multiset(b) && a != []
    ensures i < |b| && b[i] == a[|a| - 1]
    ensures multiset(a[..|a| - 1]) == multiset(b[..i] + b[i + 1..])
  {
    var last := a[|a| - 1];
    assert last in multiset(b);
    i :| 0 <= i < |b| && b[i] == last;
    RemoveOne(b, i);
    RemoveOne(a, |a| - 1);
    assert a[..|a| - 1] + a[|a| - 1 + 1..] == a[..|a| - 1];
    assert multiset(a[..|a| - 1]) == multiset(a) - multiset{last};
    assert multiset(b[..i] + b[i + 1..]) == multiset(b) - multiset{last};
  }

  lemma SameLength<T>(a: seq<T>, b: seq<T>)
    requires multiset(a) == multiset(b)
    ensures |a| == |b|
  {
    assert |a| == |multiset(a)| == |multiset(b)| == |b|;
  }

  /** Reordering the arguments reorders the results. */
  lemma {:induction false} MappedPermutation<A, B>(f: A -> B, a: seq<A>, b: seq<A>)
    requires multiset(a) == multiset(b)
    ensures multiset(Mapped(f, a)) == multiset(Mapped(f, b))
    decreases |a|
  {
    SameLength(a, b);
    if a != [] {
      var i := TakeLast(a, b);
      var rest := b[..i] + b[i + 1..];
      MappedPermutation(f, a[..|a| - 1], rest);
      var values := Mapped(f, b);
      RemoveOne(values, i);
      forall k | 0 <= k < |rest|
        ensures (values[..i] + values[i + 1..])[k] == Mapped(f, rest)[k]
      {
        MappedAt(f, rest, k);
        MappedAt(f, b, if k < i then k else k + 1);
      }
      assert values[..i] + values[i + 1..] == Mapped(f, rest);
      MappedAt(f, b, i);
    }
  }
}
