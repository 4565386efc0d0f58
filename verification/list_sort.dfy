/** The stable sort of GLib, on which the load order and the completion index
    rely: the same elements, in order, and equal elements not exchanged. */
module ListSort {
  import opened Sequences

  /** `leq` orders the elements of `s` totally. */
  ghost predicate OrderOn<T>(leq: (T, T) -> bool, s: seq<T>) {
    && (forall x, y | x in s && y in s :: leq(x, y) || leq(y, x))
    && (forall x, y, z | x in s && y in s && z in s && leq(x, y) && leq(y, z) :: leq(x, z))
  }

  ghost predicate Ordered<T>(leq: (T, T) -> bool, s: seq<T>) {
    forall i, j | 0 <= i < j < |s| :: leq(s[i], s[j])
  }

  function Insert<T>(leq: (T, T) -> bool, x: T, s: seq<T>): (r: seq<T>)
    ensures multiset(r) == multiset([x]) + multiset(s)
  {
    if s == [] then [x]
    else if leq(x, s[0]) then [x] + s
    else
      assert s == [s[0]] + s[1..];
      [s[0]] + Insert(leq, x, s[1..])
  }

  function Sort<T>(leq: (T, T) -> bool, s: seq<T>): (r: seq<T>)
    ensures multiset(r) == multiset(s)
  {
    if s == [] then []
    else
      assert s == [s[0]] + s[1..];
      Insert(leq, s[0], Sort(leq, s[1..]))
  }

  lemma SameElements<T>(s: seq<T>, t: seq<T>)
    requires multiset(s) == multiset(t)
    ensures |s| == |t|
    ensures forall x | x in s :: x in t
    ensures forall x | x in t :: x in s
  {
    assert |multiset(s)| == |multiset(t)|;
    forall x | x in s
      ensures x in t
    {
      assert x in multiset(s);
    }
    forall x | x in t
      ensures x in s
    {
      assert x in multiset(t);
    }
  }

  /** A first element that is before all others, of an ordered list and of one more. */
  lemma FirstBefore<T>(leq: (T, T) -> bool, x: T, s: seq<T>)
    requires OrderOn(leq, [x] + s) && Ordered(leq, s) && s != []
    ensures OrderOn(leq, [x] + s[1..]) && Ordered(leq, s[1..])
    ensures forall y | y in s[1..] :: leq(s[0], y)
    ensures leq(x, s[0]) ==> forall y | y in s :: leq(x, y)
    ensures leq(x, s[0]) || leq(s[0], x)
  {
    assert forall y | y in [x] + s[1..] :: y in [x] + s;
    assert x in [x] + s && s[0] in [x] + s;
    forall y | y in s
      ensures y in [x] + s && (y == s[0] || leq(s[0], y))
    {
      var k :| 0 <= k < |s| && s[k] == y;
      assert ([x] + s)[k + 1] == y;
    }
    forall y | y in s[1..]
      ensures leq(s[0], y)
    {
      var k :| 0 <= k < |s[1..]| && s[1..][k] == y;
      assert s[k + 1] == y;
    }
  }

  lemma OrderedFrom<T>(leq: (T, T) -> bool, x: T, s: seq<T>)
    requires Ordered(leq, s) && forall y | y in s :: leq(x, y)
    ensures Ordered(leq, [x] + s)
  {
  }

  lemma {:induction false} InsertOrdered<T>(leq: (T, T) -> bool, x: T, s: seq<T>)
    requires OrderOn(leq, [x] + s) && Ordered(leq, s)
    ensures Ordered(leq, Insert(leq, x, s))
  {
    if s != [] {
      FirstBefore(leq, x, s);
      if leq(x, s[0]) {
        OrderedFrom(leq, x, s);
      } else {
        var r := Insert(leq, x, s[1..]);
        InsertOrdered(leq, x, s[1..]);
        SameElements(r, [x] + s[1..]);
        OrderedFrom(leq, s[0], r);
      }
    }
  }

  lemma {:induction false} SortOrdered<T>(leq: (T, T) -> bool, s: seq<T>)
    requires OrderOn(leq, s)
    ensures Ordered(leq, Sort(leq, s))
  {
    if s != [] {
      SortOrdered(leq, s[1..]);
      var r := Sort(leq, s[1..]);
      SameElements(r, s[1..]);
      assert forall y | y in [s[0]] + r :: y in s;
      InsertOrdered(leq, s[0], r);
    }
  }

  function Equivalent<T>(leq: (T, T) -> bool, x: T, y: T): seq<T> {
    if leq(x, y) && leq(y, x) then [y] else []
  }

  /** Elements that `leq` cannot tell apart keep their relative order: the
      subsequence of those equivalent to any `x` is the same as before. */
  function Equivalents<T>(leq: (T, T) -> bool, x: T, s: seq<T>): seq<T> {
    if s == [] then []
    else Equivalent(leq, x, s[0]) + Equivalents(leq, x, s[1..])
  }

  lemma EquivalentsFirst<T>(leq: (T, T) -> bool, x: T, y: T, s: seq<T>)
    ensures Equivalents(leq, x, [y] + s) == Equivalent(leq, x, y) + Equivalents(leq, x, s)
  {
    assert ([y] + s)[1..] == s;
  }

  /** Of two elements in strict order only one is equivalent to a third. */
  lemma OneEquivalent<T>(leq: (T, T) -> bool, x: T, y: T, z: T, s: seq<T>)
    requires OrderOn(leq, s) && x in s && y in s && z in s && !leq(y, z)
    ensures Equivalent(leq, x, y) == [] || Equivalent(leq, x, z) == []
    ensures Equivalent(leq, x, y) + Equivalent(leq, x, z) == Equivalent(leq, x, z) + Equivalent(leq, x, y)
  {
  }

  lemma {:induction false} InsertStable<T>(leq: (T, T) -> bool, x: T, y: T, s: seq<T>, all: seq<T>)
    requires OrderOn(leq, all) && x in all && y in all && forall z | z in s :: z in all
    ensures Equivalents(leq, x, Insert(leq, y, s)) == Equivalents(leq, x, [y] + s)
  {
    if s != [] && !leq(y, s[0]) {
      var z, t := s[0], s[1..];
      assert s == [z] + t;
      var e, f, rest := Equivalent(leq, x, y), Equivalent(leq, x, z), Equivalents(leq, x, t);
      InsertStable(leq, x, y, t, all);
      OneEquivalent(leq, x, y, z, all);
      EquivalentsFirst(leq, x, z, Insert(leq, y, t));
      EquivalentsFirst(leq, x, y, t);
      EquivalentsFirst(leq, x, y, s);
      EquivalentsFirst(leq, x, z, t);
      Associative(e, f, rest);
      Associative(f, e, rest);
    }
  }

  lemma StableStep<T>(leq: (T, T) -> bool, x: T, s: seq<T>, r: seq<T>)
    requires s != [] && r == Sort(leq, s[1..])
    requires Equivalents(leq, x, r) == Equivalents(leq, x, s[1..])
    requires Equivalents(leq, x, Insert(leq, s[0], r)) == Equivalents(leq, x, [s[0]] + r)
    ensures Equivalents(leq, x, Sort(leq, s)) == Equivalents(leq, x, s)
  {
    assert ([s[0]] + r)[1..] == r;
  }

  lemma {:induction false} SortStableFrom<T>(leq: (T, T) -> bool, x: T, s: seq<T>, k: nat)
    requires x in s && OrderOn(leq, s) && k <= |s|
    ensures Equivalents(leq, x, Sort(leq, s[k..])) == Equivalents(leq, x, s[k..])
    decreases |s| - k
  {
    if k < |s| {
      SortStableFrom(leq, x, s, k + 1);
      var u := s[k..];
      assert u[1..] == s[k + 1..];
      var r := Sort(leq, u[1..]);
      SameElements(r, u[1..]);
      InsertStable(leq, x, u[0], r, s);
      StableStep(leq, x, u, r);
    }
  }

  lemma {:induction false} SortStable<T>(leq: (T, T) -> bool, x: T, s: seq<T>)
    requires x in s && OrderOn(leq, s)
    ensures Equivalents(leq, x, Sort(leq, s)) == Equivalents(leq, x, s)
  {
    SortStableFrom(leq, x, s, 0);
    assert s[0..] == s;
  }
}
