/** The completion index of libanjuta/anjuta-completion.c: sorted when it is first
    needed, searched by bisection, and starting from the last range found when the
    new prefix extends the last one. */
module Completions {
  import opened CompletionIndex
  import opened Options

  class Completion<T(==)> {
    var items: seq<T>
    var itemsSorted: bool
    var lastComplete: Option<string>
    var lastStart: int
    var lastEnd: int
    var caseSensitive: bool
    var filter: Option<T -> bool>
    const name: T -> string
    ghost var added: multiset<T>  // all items added since the last clear

    function Now(): Index<T>
      reads this`items, this`caseSensitive
    {
      Index(items, caseSensitive, name)
    }

    ghost predicate Valid()
      reads this
    {
      && multiset(items) == added
      && (itemsSorted ==> Now().Sorted())
      && (itemsSorted && lastComplete.Some? ==> Now().Covers(lastComplete.value, lastStart, lastEnd))
    }

    constructor (name: T -> string)
      ensures Valid() && !itemsSorted && Now() == Index([], true, name) && filter == None
    {
      this.name := name;
      items, itemsSorted, caseSensitive, filter := [], false, true, None;
      lastComplete, lastStart, lastEnd := None, 0, 0;
      added := multiset{};
    }

    /** Where to search: the last range, if the new prefix extends the last one. */
    method SearchRange(prefix: string) returns (start: int, end: int)
      requires Valid()
      ensures itemsSorted ==> Now().Covers(prefix, start, end)
      ensures !itemsSorted ==> start == 0 && end == |items| - 1
    {
      if lastComplete.Some? && itemsSorted && lastComplete.value <= prefix {
        start, end := lastStart, lastEnd;
        Now().CoversLonger(lastComplete.value, prefix, start, end);
      } else {
        start, end := 0, |items| - 1;
      }
    }

    /** Sort the items if that has not been done. */
    method SortItems()
      requires itemsSorted ==> Now().Sorted()
      modifies this`items, this`itemsSorted
      ensures itemsSorted && Now().Sorted()
      ensures Now() == if old(itemsSorted) then old(Now()) else old(Now().Resorted())
    {
      if !itemsSorted {
        Now().ResortedSorted();
        items := Now().Resorted().items;
        itemsSorted := true;
      }
    }

    /** The beginning of anjuta_completion_complete: sorted items and where to search. */
    method Prepare(prefix: string) returns (start: int, end: int)
      requires Valid()
      modifies this`items, this`itemsSorted, this`lastComplete
      ensures itemsSorted && Now().Sorted() && Now().Covers(prefix, start, end) && lastComplete == None
      ensures multiset(items) == added
      ensures Now() == if old(itemsSorted) then old(Now()) else old(Now().Resorted())
    {
      start, end := SearchRange(prefix);
      lastComplete := None;
      SortItems();
    }

    /** Caches the range of a prefix. */
    method Remember(prefix: string, first: int, last: int)
      requires multiset(items) == added && Now().Sorted() && Now().Covers(prefix, first, last)
      modifies this`lastComplete, this`lastStart, this`lastEnd
      ensures Valid()
    {
      lastComplete, lastStart, lastEnd := Some(prefix), first, last;
    }

    /** anjuta_completion_complete.  Whatever range is cached, and whatever came
        before, the result is that of a scan over the sorted items, cut off when the
        maximum is positive. */
    method Complete(prefix: string, maxCompletions: int) returns (completions: seq<T>)
      requires Valid()
      modifies this`items, this`itemsSorted, this`lastComplete, this`lastStart, this`lastEnd
      ensures Valid() && itemsSorted
      ensures Now() == if old(itemsSorted) then old(Now()) else old(Now().Resorted())
      ensures var all := Select(items, Now().Wanted(prefix, filter));
              completions <= all && |completions| == if maxCompletions <= 0 || |all| <= maxCompletions then |all| else maxCompletions
    {
      var start, end := Prepare(prefix);
      var index := Now();
      var first, last;
      completions, first, last := index.Search(prefix, filter, start, end, maxCompletions);
      Remember(prefix, first, last);
    }

    /** anjuta_completion_clear */
    method Clear()
      requires Valid()
      modifies this`items, this`lastComplete, this`added
      ensures Valid() && items == [] && added == multiset{}
    {
      items, lastComplete, added := [], None, multiset{};
    }

    /** anjuta_completion_add_item */
    method AddItem(item: T)
      requires Valid()
      modifies this`items, this`itemsSorted, this`added
      ensures Valid() && !itemsSorted
      ensures items == old(items) + [item] && added == old(added) + multiset{item}
    {
      items, itemsSorted := items + [item], false;
      added := added + multiset{item};
    }

    /** anjuta_completion_set_filter_func */
    method SetFilter(filter: Option<T -> bool>)
      requires Valid()
      modifies this`filter
      ensures Valid() && this.filter == filter
    {
      this.filter := filter;
    }

    /** anjuta_completion_set_case_sensitive */
    method SetCaseSensitive(caseSensitive: bool)
      requires Valid()
      modifies this`caseSensitive, this`itemsSorted, this`lastComplete
      ensures Valid() && this.caseSensitive == caseSensitive
      ensures itemsSorted == (old(itemsSorted) && caseSensitive == old(this.caseSensitive))
    {
      if this.caseSensitive == caseSensitive {
        return;
      }
      lastComplete, itemsSorted := None, false;
      this.caseSensitive := caseSensitive;
    }
  }
}
