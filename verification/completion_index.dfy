/** String comparison as the completion index uses it, libanjuta/anjuta-completion.c,
    and what completing a prefix means: a scan of the sorted items. */
module CompletionIndex {
  import opened ListSort
  import opened Options
  import opened StringComparison

  /** strncmp of a prefix with a name, up to the length of the prefix. */
  function ComparePrefix(prefix: string, name: string): (r: int)
    ensures r == 0 <==> prefix <= name
  {
    if prefix == [] then 0
    else if name == [] then 1
    else if prefix[0] != name[0] then (if prefix[0] < name[0] then -1 else 1)
    else
      assert prefix == [prefix[0]] + prefix[1..] && name == [name[0]] + name[1..];
      ComparePrefix(prefix[1..], name[1..])
  }

  /** What is compared: g_ascii_strcasecmp compares lower case. */
  function Folded(caseSensitive: bool, s: string): string {
    if caseSensitive then s else Lower(s)
  }

  /** Later names compare no higher with a prefix. */
  lemma {:induction false} CompareMonotone(prefix: string, a: string, b: string)
    requires Compare(a, b) <= 0
    ensures ComparePrefix(prefix, a) < 0 ==> ComparePrefix(prefix, b) < 0
    ensures ComparePrefix(prefix, a) == 0 ==> ComparePrefix(prefix, b) <= 0
  {
    if prefix != [] && a != [] && b != [] && prefix[0] == a[0] == b[0] {
      CompareMonotone(prefix[1..], a[1..], b[1..]);
    }
  }

  /** The items wanted, in order. */
  function Select<T>(items: seq<T>, wanted: T -> bool): seq<T>
    decreases |items|
  {
    if items == [] then []
    else
      var n := |items| - 1;
      Select(items[..n], wanted) + if wanted(items[n]) then [items[n]] else []
  }

  /** No more than `max` of them, if that is positive. */
  function Cut<T>(s: seq<T>, max: int): (r: seq<T>)
    ensures r <= s && |r| == if max <= 0 || |s| <= max then |s| else max
  {
    if 0 < max < |s| then s[..max] else s
  }

  lemma {:induction false} SelectNone<T>(s: seq<T>, wanted: T -> bool)
    requires forall i :: 0 <= i < |s| ==> !wanted(s[i])
    ensures Select(s, wanted) == []
    decreases |s|
  {
    if s != [] {
      SelectNone(s[..|s| - 1], wanted);
    }
  }

  /** An item is selected as often as it is there, if it is wanted. */
  lemma {:induction false} SelectCounts<T>(s: seq<T>, wanted: T -> bool, x: T)
    ensures multiset(Select(s, wanted))[x] == if wanted(x) then multiset(s)[x] else 0
    decreases |s|
  {
    if s != [] {
      var n := |s| - 1;
      SelectCounts(s[..n], wanted, x);
      assert s == s[..n] + [s[n]];
    }
  }

  /** Nothing outside a range that holds all wanted items matters. */
  lemma {:induction false} SelectWithin<T>(s: seq<T>, wanted: T -> bool, lo: nat, hi: nat)
    requires lo <= hi <= |s|
    requires forall i :: 0 <= i < |s| && wanted(s[i]) ==> lo <= i < hi
    ensures Select(s, wanted) == Select(s[lo..hi], wanted)
    decreases |s|
  {
    if lo == hi {
      SelectNone(s, wanted);
    } else {
      var n := |s| - 1;
      if hi <= n {
        assert s[..n][lo..hi] == s[lo..hi];
        SelectWithin(s[..n], wanted, lo, hi);
      } else {
        var range := s[lo..hi];
        assert range == s[lo..n] + [s[n]] && s[lo..n] == s[..n][lo..n];
        assert range[..|range| - 1] == s[..n][lo..n] && range[|range| - 1] == s[n];
        SelectWithin(s[..n], wanted, lo, n);
      }
    }
  }

  lemma {:induction false} SelectCut<T>(s: seq<T>, wanted: T -> bool, k: nat)
    requires k <= |s|
    ensures Select(s[..k], wanted) <= Select(s, wanted)
    decreases |s|
  {
    if k == |s| {
      assert s[..k] == s;
    } else {
      var t := s[..|s| - 1];
      assert t[..k] == s[..k];
      SelectCut(t, wanted, k);
    }
  }

  /** Folding keeps prefixes. */
  lemma FoldedPrefix(caseSensitive: bool, p: string, q: string)
    requires p <= q
    ensures Folded(caseSensitive, p) <= Folded(caseSensitive, q)
  {
  }

  lemma SelectNext<T>(s: seq<T>, wanted: T -> bool, k: nat)
    requires k < |s|
    ensures Select(s[..k + 1], wanted) == Select(s[..k], wanted) + if wanted(s[k]) then [s[k]] else []
  {
    assert s[..k + 1][..k] == s[..k];
  }

  lemma CutFull<T>(s: seq<T>, wanted: T -> bool, k: nat, max: int)
    requires k <= |s| && |Select(s[..k], wanted)| == max > 0
    ensures Cut(Select(s, wanted), max) == Select(s[..k], wanted)
  {
    SelectCut(s, wanted, k);
  }

  /** Where the first bisection ends on signs that fall. */
  lemma FirstZero(signs: seq<int>, start: int, l: int, r: int, end: int, hit: bool, i: int)
    requires 0 <= start <= l && r <= l <= r + 1 && r <= end < |signs| && (start <= end ==> l <= end)
    requires hit ==> start <= r && signs[r] == 0
    requires forall k | start <= k < l :: signs[k] > 0
    requires forall k | r < k <= end && !hit :: signs[k] < 0
    requires start <= i <= end && signs[i] == 0
    ensures l <= i && signs[l] == 0
  {
    if !hit {
      assert i <= r;
    }
  }

  /** The items as they stand, and how they are compared. */
  datatype Index<!T> = Index(items: seq<T>, caseSensitive: bool, name: T -> string) {

    function Key(item: T): string {
      Folded(caseSensitive, name(item))
    }

    /** anjuta_completion_item_sort_func */
    function Leq(): (T, T) -> bool {
      (a, b) => Compare(Key(a), Key(b)) <= 0
    }

    predicate InOrder(i: int, j: int)
      requires 0 <= i < |items| && 0 <= j < |items|
    {
      Compare(Key(items[i]), Key(items[j])) <= 0
    }

    ghost predicate Sorted() {
      forall i, j {:trigger InOrder(i, j)} | 0 <= i < j < |items| :: InOrder(i, j)
    }

    /** How an item compares with a prefix. */
    function Cmp(prefix: string, i: int): int
      requires 0 <= i < |items|
    {
      ComparePrefix(Folded(caseSensitive, prefix), Key(items[i]))
    }

    /** What completing a prefix is after. */
    function Wanted(prefix: string, filter: Option<T -> bool>): T -> bool {
      item => Folded(caseSensitive, prefix) <= Key(item) && (filter.Some? ==> filter.value(item))
    }

    /** An item is wanted when the prefix is that of its name, letter by letter, and the
        filter lets it pass. */
    lemma WantedExactly(prefix: string, filter: Option<T -> bool>, item: T)
      ensures var n := name(item);
              Wanted(prefix, filter)(item) <==>
                && |prefix| <= |n|
                && (forall i | 0 <= i < |prefix| ::
                      prefix[i] == n[i] || (!caseSensitive && ToLower(prefix[i]) == ToLower(n[i])))
                && (filter.Some? ==> filter.value(item))
    {
      var n := name(item);
      var p, q := Folded(caseSensitive, prefix), Key(item);
      assert |p| == |prefix| && |q| == |n|;
      assert p <= q <==> |p| <= |q| && forall i | 0 <= i < |p| :: p[i] == q[i];
      if |p| <= |q| {
        assert forall i | 0 <= i < |p| ::
            p[i] == q[i] <==> prefix[i] == n[i] || (!caseSensitive && ToLower(prefix[i]) == ToLower(n[i]));
      }
    }

    /** All items that match a prefix are in the range. */
    ghost predicate Covers(prefix: string, start: int, end: int) {
      && 0 <= start <= end + 1 <= |items|
      && forall i {:trigger Cmp(prefix, i)} :: 0 <= i < |items| && Cmp(prefix, i) == 0 ==> start <= i <= end
    }

    /** The items after sorting. */
    function Resorted(): (r: Index<T>)
      ensures multiset(r.items) == multiset(items) && r == this.(items := r.items)
    {
      this.(items := Sort(Leq(), items))
    }

    lemma ResortedSorted()
      ensures Resorted().Sorted()
    {
      forall x, y | x in items && y in items
        ensures Leq()(x, y) || Leq()(y, x)
      {
        CompareTotal(Key(x), Key(y));
      }
      forall x, y, z | x in items && y in items && z in items && Leq()(x, y) && Leq()(y, z)
        ensures Leq()(x, z)
      {
        CompareTransitive(Key(x), Key(y), Key(z));
      }
      SortOrdered(Leq(), items);
      var r := Resorted();
      forall i, j | 0 <= i < j < |r.items|
        ensures r.InOrder(i, j)
      {
        assert Leq()(r.items[i], r.items[j]);
      }
    }

    /** Along sorted items the comparison with a prefix only falls. */
    lemma Falling(prefix: string, i: int, j: int)
      requires Sorted() && 0 <= i <= j < |items|
      ensures Cmp(prefix, i) < 0 ==> Cmp(prefix, j) < 0
      ensures Cmp(prefix, i) == 0 ==> Cmp(prefix, j) <= 0
    {
      if i < j {
        assert InOrder(i, j);
        CompareMonotone(Folded(caseSensitive, prefix), Key(items[i]), Key(items[j]));
      }
    }

    /** How all items compare with a prefix. */
    ghost function Signs(prefix: string): (r: seq<int>)
      ensures |r| == |items| && forall i {:trigger r[i]} {:trigger Cmp(prefix, i)} | 0 <= i < |items| :: r[i] == Cmp(prefix, i)
    {
      seq(|items|, i requires 0 <= i < |items| => Cmp(prefix, i))
    }

    lemma FallingAround(prefix: string, signs: seq<int>, mid: int)
      requires Sorted() && 0 <= mid < |items| && signs == Signs(prefix)
      ensures signs[mid] > 0 ==> forall i | 0 <= i <= mid :: signs[i] > 0
      ensures signs[mid] < 0 ==> forall i | mid <= i < |items| :: signs[i] < 0
    {
      forall i | 0 <= i < |items|
        ensures i <= mid && signs[mid] > 0 ==> signs[i] > 0
        ensures mid <= i && signs[mid] < 0 ==> signs[i] < 0
      {
        if i <= mid { Falling(prefix, i, mid); }
        if mid <= i { Falling(prefix, mid, i); }
      }
    }

    /** What the first bisection ends with. */
    lemma FirstFound(prefix: string, signs: seq<int>, start: int, l: int, r: int, end: int, hit: bool)
      requires Covers(prefix, start, end) && signs == Signs(prefix)
      requires start <= l && r <= l <= r + 1 && r <= end && (start <= end ==> l <= end)
      requires hit ==> start <= r && signs[r] == 0
      requires forall i | start <= i < l :: signs[i] > 0
      requires forall i | r < i <= end && !hit :: signs[i] < 0
      ensures Covers(prefix, l, end)
      ensures (exists i :: 0 <= i < |items| && Cmp(prefix, i) == 0) ==> l <= end && Cmp(prefix, l) == 0
    {
      forall i | 0 <= i < |items| && Cmp(prefix, i) == 0
        ensures l <= i <= end && Cmp(prefix, l) == 0
      {
        FirstZero(signs, start, l, r, end, hit, i);
      }
    }

    /** A range for a prefix serves every longer prefix. */
    lemma CoversLonger(p: string, q: string, start: int, end: int)
      requires Covers(p, start, end) && p <= q
      ensures Covers(q, start, end)
    {
      forall i | 0 <= i < |items| && Cmp(q, i) == 0
        ensures start <= i <= end
      {
        FoldedPrefix(caseSensitive, p, q);
        assert Cmp(p, i) == 0;
      }
    }

    /** Only the range counts. */
    lemma WantedWithin(prefix: string, filter: Option<T -> bool>, start: int, end: int)
      requires Covers(prefix, start, end)
      ensures Select(items, Wanted(prefix, filter)) == Select(items[start..end + 1], Wanted(prefix, filter))
    {
      forall i | 0 <= i < |items| && Wanted(prefix, filter)(items[i])
        ensures start <= i <= end
      {
        assert Cmp(prefix, i) == 0;
      }
      SelectWithin(items, Wanted(prefix, filter), start, end + 1);
    }

    lemma NoneWanted(prefix: string, filter: Option<T -> bool>, start: int, end: int)
      requires Covers(prefix, start, end) && forall i :: start <= i <= end ==> Cmp(prefix, i) != 0
      ensures Select(items, Wanted(prefix, filter)) == []
    {
      forall i | 0 <= i < |items|
        ensures !Wanted(prefix, filter)(items[i])
      {
        assert Cmp(prefix, i) != 0;
      }
      SelectNone(items, Wanted(prefix, filter));
    }

    /** The first bisection. */
    method FirstMatch(prefix: string, start: int, end: int) returns (l: int)
      requires Sorted() && Covers(prefix, start, end)
      ensures Covers(prefix, l, end)
      ensures (exists i :: 0 <= i < |items| && Cmp(prefix, i) == 0) ==> l <= end && Cmp(prefix, l) == 0
    {
      l := start;
      var r := end;
      ghost var signs := Signs(prefix);
      ghost var hit := false;  // r is on a match
      while l < r
        invariant start <= l <= r + 1 && r <= end && (start <= end ==> l <= end)
        invariant hit ==> start <= r && signs[r] == 0
        invariant forall i | start <= i < l :: signs[i] > 0
        invariant forall i | r < i <= end && !hit :: signs[i] < 0
        decreases r - l
      {
        var mid := l + (r - l) / 2;
        var cmp := Cmp(prefix, mid);
        FallingAround(prefix, signs, mid);
        if cmp > 0 {
          l := mid + 1;
        } else if cmp < 0 {
          r, hit := mid - 1, false;
        } else {
          r, hit := mid, true;
        }
      }
      FirstFound(prefix, signs, start, l, r, end, hit);
    }

    /** The second bisection. */
    method LastMatch(prefix: string, first: int, end: int) returns (r: int)
      requires Sorted() && Covers(prefix, first, end)
      requires forall i :: 0 <= i < |items| && Cmp(prefix, i) == 0 ==> first <= end && Cmp(prefix, first) == 0
      ensures Covers(prefix, first, r)
      ensures first <= r && Cmp(prefix, first) == 0 ==> forall i :: first <= i <= r ==> Cmp(prefix, i) == 0
    {
      var l := first;
      r := end;
      while l < r
        invariant first <= l && l <= r + 1 && r <= end && (first <= end ==> l <= r)
        invariant forall i :: 0 <= i < |items| && Cmp(prefix, i) == 0 ==> i <= r
        invariant first <= end && Cmp(prefix, first) == 0 ==> Cmp(prefix, l) == 0
        decreases r - l
      {
        var mid := l + (r - l) / 2 + 1;
        var cmp := Cmp(prefix, mid);
        forall i | mid <= i < |items|
          ensures cmp < 0 ==> Cmp(prefix, i) < 0
        {
          Falling(prefix, mid, i);
        }
        Falling(prefix, first, mid);
        if cmp == 0 {
          l := mid;
        } else {
          r := mid - 1;
        }
      }
      if first <= r && Cmp(prefix, first) == 0 {
        forall i | first <= i <= r
          ensures Cmp(prefix, i) == 0
        {
          Falling(prefix, first, i);
          Falling(prefix, i, r);
        }
      }
    }

    /** The matches in a range, in order, cut at `max` when that is positive. */
    method Collect(prefix: string, filter: Option<T -> bool>, first: int, last: int, max: int) returns (completions: seq<T>)
      requires Covers(prefix, first, last)
      requires forall i :: 0 <= i < |items| && Cmp(prefix, i) == 0 ==> first <= last && Cmp(prefix, first) == 0
      requires first <= last && Cmp(prefix, first) == 0 ==> forall i :: first <= i <= last ==> Cmp(prefix, i) == 0
      ensures completions == Cut(Select(items, Wanted(prefix, filter)), max)
    {
      completions := [];
      ghost var wanted := Wanted(prefix, filter);
      ghost var range := items[first..last + 1];
      WantedWithin(prefix, filter, first, last);
      var i := first;
      ghost var k := 0;
      while i <= last
        invariant 0 <= k <= |range| && i == first + k
        invariant completions == Select(range[..k], wanted)
        invariant 0 < max ==> |completions| < max
        invariant first < i ==> Cmp(prefix, first) == 0
        decreases last + 1 - i
      {
        var item := items[i];
        if Cmp(prefix, i) != 0 {
          NoneWanted(prefix, filter, first, last);
          assert Select(range, wanted) == [];
          return;
        }
        assert item == range[k];
        SelectNext(range, wanted, k);
        assert wanted(item) == (filter.Some? ==> filter.value(item));
        k := k + 1;
        if filter.None? || filter.value(item) {
          completions := completions + [item];
          if max > 0 && |completions| == max {
            CutFull(range, wanted, k, max);
            return;
          }
        }
        i := i + 1;
      }
      assert range[..k] == range;
    }

    /** The search of anjuta_completion_complete in sorted items. */
    method Search(prefix: string, filter: Option<T -> bool>, start: int, end: int, max: int)
      returns (completions: seq<T>, first: int, last: int)
      requires Sorted() && Covers(prefix, start, end)
      ensures completions == Cut(Select(items, Wanted(prefix, filter)), max)
      ensures Covers(prefix, first, last)
    {
      first := FirstMatch(prefix, start, end);
      last := LastMatch(prefix, first, end);
      completions := Collect(prefix, filter, first, last, max);
    }
  }
}
