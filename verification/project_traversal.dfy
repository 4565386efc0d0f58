/** Walking the node tree of libanjuta/anjuta-project.c.  The orders are defined on the
    lists of children; the walks follow the links, which the callback may cut. */
module ProjectTraversal {
  import opened ProjectTree
  import opened Sequences

  type Rank = map<Node, nat>

  function Elements(s: seq<Node>): set<Node> {
    set x | x in s
  }

  /** The lists of children form a forest: no node is a child twice, and ranks fall
      from parent to child. */
  ghost predicate Forest(kids: Kids, rank: Rank) {
    && kids.Keys == rank.Keys
    && (forall n {:trigger kids[n]} | n in kids :: Distinct(kids[n]))
    && (forall n, c {:trigger c in kids[n]} | n in kids && c in kids[n] :: c in kids && rank[c] < rank[n])
    && (forall n, m, c {:trigger c in kids[n], c in kids[m]} | n in kids && m in kids && c in kids[n] && c in kids[m] :: n == m)
  }

  /** A node and all below it, parents first or last. */
  ghost function Order(kids: Kids, rank: Rank, pre: bool, n: Node): seq<Node>
    requires Forest(kids, rank) && n in kids
    decreases rank[n], 1, 0
  {
    if pre then [n] + Children(kids, rank, pre, n, |kids[n]|) else Children(kids, rank, pre, n, |kids[n]|) + [n]
  }

  /** The nodes below the first i children of a node. */
  ghost function Children(kids: Kids, rank: Rank, pre: bool, n: Node, i: nat): seq<Node>
    requires Forest(kids, rank) && n in kids && i <= |kids[n]|
    decreases rank[n], 0, i
  {
    if i == 0 then []
    else
      assert kids[n][i - 1] in kids[n];
      Children(kids, rank, pre, n, i - 1) + Order(kids, rank, pre, kids[n][i - 1])
  }

  /** A node is in the subtree of another. */
  ghost predicate Under(kids: Kids, rank: Rank, n: Node, x: Node)
    requires Forest(kids, rank)
    decreases if n in kids then rank[n] + 1 else 0
  {
    x == n || (n in kids && exists c :: c in kids[n] && Under(kids, rank, c, x))
  }

  /** A node is under one of the first i children of another. */
  ghost predicate UnderChild(kids: Kids, rank: Rank, n: Node, i: nat, x: Node)
    requires Forest(kids, rank) && n in kids && i <= |kids[n]|
  {
    exists j :: 0 <= j < i && Under(kids, rank, kids[n][j], x)
  }

  lemma {:induction false} UnderRank(kids: Kids, rank: Rank, n: Node, x: Node)
    requires Forest(kids, rank) && n in kids && Under(kids, rank, n, x)
    ensures x in kids && rank[x] <= rank[n]
    decreases rank[n]
  {
    if x != n {
      var c :| c in kids[n] && Under(kids, rank, c, x);
      UnderRank(kids, rank, c, x);
    }
  }

  lemma {:induction false} UnderParent(kids: Kids, rank: Rank, n: Node, x: Node) returns (p: Node)
    requires Forest(kids, rank) && n in kids && Under(kids, rank, n, x) && x != n
    ensures p in kids && x in kids[p] && Under(kids, rank, n, p)
    decreases rank[n]
  {
    var c :| c in kids[n] && Under(kids, rank, c, x);
    if x == c {
      p := n;
    } else {
      p := UnderParent(kids, rank, c, x);
    }
  }

  lemma {:induction false} Apart(kids: Kids, rank: Rank, n: Node, a: Node, b: Node, x: Node)
    requires Forest(kids, rank) && n in kids && a in kids[n] && b in kids[n] && a != b
    requires Under(kids, rank, a, x)
    ensures !Under(kids, rank, b, x)
    decreases if x in kids then rank[n] as int - rank[x] else 0
  {
    UnderRank(kids, rank, a, x);
    if Under(kids, rank, b, x) {
      if x == a {
        var p := UnderParent(kids, rank, b, a);
        UnderRank(kids, rank, b, n);
      } else if x == b {
        var p := UnderParent(kids, rank, a, b);
        UnderRank(kids, rank, a, n);
      } else {
        var p := UnderParent(kids, rank, a, x);
        var q := UnderParent(kids, rank, b, x);
        UnderRank(kids, rank, a, p);
        Apart(kids, rank, n, a, b, p);
      }
    }
  }

  lemma DistinctSum(s: seq<Node>, t: seq<Node>)
    requires Distinct(s) && Distinct(t) && forall x | x in s :: x !in t
    ensures Distinct(s + t)
  {
    forall i, j | 0 <= i < j < |s + t|
      ensures (s + t)[i] != (s + t)[j]
    {
      if i < |s| <= j { assert s[i] in s && t[j - |s|] in t; }
    }
  }

  /** Either order visits exactly the nodes of the subtree, each once. */
  lemma {:induction false} OrderOnce(kids: Kids, rank: Rank, pre: bool, n: Node)
    requires Forest(kids, rank) && n in kids
    ensures Distinct(Order(kids, rank, pre, n))
    ensures forall x :: x in Order(kids, rank, pre, n) <==> Under(kids, rank, n, x)
    decreases rank[n], 1, 0
  {
    var below := Children(kids, rank, pre, n, |kids[n]|);
    ChildrenOnce(kids, rank, pre, n, |kids[n]|);
    assert n !in below by {
      if n in below {
        assert UnderChild(kids, rank, n, |kids[n]|, n);
        var j :| 0 <= j < |kids[n]| && Under(kids, rank, kids[n][j], n);
        assert kids[n][j] in kids[n];
        UnderRank(kids, rank, kids[n][j], n);
      }
    }
    DistinctSum([n], below);
    DistinctSum(below, [n]);
  }

  lemma {:induction false} ChildrenOnce(kids: Kids, rank: Rank, pre: bool, n: Node, i: nat)
    requires Forest(kids, rank) && n in kids && i <= |kids[n]|
    ensures Distinct(Children(kids, rank, pre, n, i))
    ensures forall x :: x in Children(kids, rank, pre, n, i) <==> UnderChild(kids, rank, n, i, x)
    decreases rank[n], 0, i
  {
    if i > 0 {
      var c := kids[n][i - 1];
      assert c in kids[n];
      ChildrenOnce(kids, rank, pre, n, i - 1);
      OrderOnce(kids, rank, pre, c);
      forall x | x in Children(kids, rank, pre, n, i - 1)
        ensures x !in Order(kids, rank, pre, c)
      {
        assert UnderChild(kids, rank, n, i - 1, x);
        var j :| 0 <= j < i - 1 && Under(kids, rank, kids[n][j], x);
        Apart(kids, rank, n, kids[n][j], c, x);
      }
      DistinctSum(Children(kids, rank, pre, n, i - 1), Order(kids, rank, pre, c));
    }
  }

  /** Pre-order has every parent before its children, post-order after them. */
  lemma {:induction false} ParentFirst(kids: Kids, rank: Rank, pre: bool, n: Node, i: nat, j: nat)
    requires Forest(kids, rank) && n in kids
    requires var s := Order(kids, rank, pre, n); i < |s| && j < |s| && s[i] in kids && s[j] in kids[s[i]]
    ensures if pre then i < j else j < i
    decreases rank[n], 1, 0
  {
    var s := Order(kids, rank, pre, n);
    var below := Children(kids, rank, pre, n, |kids[n]|);
    OrderOnce(kids, rank, pre, n);
    assert s[i] in s && s[j] in s;
    UnderRank(kids, rank, n, s[i]);
    UnderRank(kids, rank, n, s[j]);
    var first := if pre then 1 else 0;
    assert s[if pre then 0 else |s| - 1] == n && s[j] != n;
    if s[i] != n {
      assert below[i - first] == s[i] && below[j - first] == s[j];
      ChildrenParentFirst(kids, rank, pre, n, |kids[n]|, i - first, j - first);
    }
  }

  lemma {:induction false} UnderBelow(kids: Kids, rank: Rank, node: Node, n: Node, c: Node)
    requires Forest(kids, rank) && node in kids && n in kids && c in kids[n]
    requires Under(kids, rank, node, n)
    ensures Under(kids, rank, node, c)
    decreases rank[node]
  {
    if n != node {
      var d :| d in kids[node] && Under(kids, rank, d, n);
      UnderBelow(kids, rank, d, n, c);
    }
  }

  /** A child of a node below an earlier child is not below the k-th child. */
  lemma SameBlock(kids: Kids, rank: Rank, pre: bool, n: Node, k: nat, p: Node, x: Node)
    requires Forest(kids, rank) && n in kids && k < |kids[n]| && kids[n][k] in kids
    requires p in Children(kids, rank, pre, n, k) && p in kids && x in kids[p]
    ensures x !in Order(kids, rank, pre, kids[n][k])
  {
    ChildrenOnce(kids, rank, pre, n, k);
    OrderOnce(kids, rank, pre, kids[n][k]);
    assert UnderChild(kids, rank, n, k, p);
    var j :| 0 <= j < k && Under(kids, rank, kids[n][j], p);
    assert kids[n][j] in kids[n];
    UnderBelow(kids, rank, kids[n][j], p, x);
    Apart(kids, rank, n, kids[n][j], kids[n][k], x);
  }

  /** A child of a node below the k-th child is not below an earlier one. */
  lemma OtherBlock(kids: Kids, rank: Rank, pre: bool, n: Node, k: nat, p: Node, x: Node)
    requires Forest(kids, rank) && n in kids && k < |kids[n]| && kids[n][k] in kids
    requires p in Order(kids, rank, pre, kids[n][k]) && p in kids && x in kids[p]
    ensures x !in Children(kids, rank, pre, n, k)
  {
    ChildrenOnce(kids, rank, pre, n, k);
    OrderOnce(kids, rank, pre, kids[n][k]);
    assert Under(kids, rank, kids[n][k], p);
    UnderBelow(kids, rank, kids[n][k], p, x);
    if UnderChild(kids, rank, n, k, x) {
      var j :| 0 <= j < k && Under(kids, rank, kids[n][j], x);
      assert kids[n][j] in kids[n];
      Apart(kids, rank, n, kids[n][j], kids[n][k], x);
    }
  }

  lemma {:induction false} ChildrenParentFirst(kids: Kids, rank: Rank, pre: bool, n: Node, k: nat, i: nat, j: nat)
    requires Forest(kids, rank) && n in kids && k <= |kids[n]|
    requires var s := Children(kids, rank, pre, n, k); i < |s| && j < |s| && s[i] in kids && s[j] in kids[s[i]]
    ensures if pre then i < j else j < i
    decreases rank[n], 0, k
  {
    var s := Children(kids, rank, pre, n, k - 1);
    var c := kids[n][k - 1];
    assert c in kids[n];
    var t := Order(kids, rank, pre, c);
    if i < |s| && j < |s| {
      ChildrenParentFirst(kids, rank, pre, n, k - 1, i, j);
    } else if i >= |s| && j >= |s| {
      ParentFirst(kids, rank, pre, c, i - |s|, j - |s|);
    } else if i < |s| {
      SameBlock(kids, rank, pre, n, k - 1, s[i], t[j - |s|]);
    } else {
      OtherBlock(kids, rank, pre, n, k - 1, t[i - |s|], s[j]);
    }
  }

  /** The subtree of each child is one block. */
  lemma {:induction false} ChildBlock(kids: Kids, rank: Rank, pre: bool, n: Node, i: nat, k: nat) returns (after: seq<Node>)
    requires Forest(kids, rank) && n in kids && i < k <= |kids[n]| && kids[n][i] in kids
    ensures Children(kids, rank, pre, n, k) == (Children(kids, rank, pre, n, i) + Order(kids, rank, pre, kids[n][i])) + after
    decreases k
  {
    if k == i + 1 {
      after := [];
    } else {
      assert kids[n][k - 1] in kids[n];
      after := ChildBlock(kids, rank, pre, n, i, k - 1);
      Associative(Children(kids, rank, pre, n, i) + Order(kids, rank, pre, kids[n][i]), after, Order(kids, rank, pre, kids[n][k - 1]));
      after := after + Order(kids, rank, pre, kids[n][k - 1]);
    }
  }

  lemma OrderEnds(kids: Kids, rank: Rank, pre: bool, n: Node) returns (first: seq<Node>, last: seq<Node>)
    requires Forest(kids, rank) && n in kids
    ensures Order(kids, rank, pre, n) == first + Children(kids, rank, pre, n, |kids[n]|) + last
  {
    first, last := if pre then [n] else [], if pre then [] else [n];
  }

  /** And so is every subtree. */
  lemma {:induction false} SubtreeBlock(kids: Kids, rank: Rank, pre: bool, n: Node, m: Node) returns (before: seq<Node>, after: seq<Node>)
    requires Forest(kids, rank) && n in kids && m in kids && Under(kids, rank, n, m)
    ensures Order(kids, rank, pre, n) == before + Order(kids, rank, pre, m) + after
    decreases rank[n]
  {
    if m == n {
      before, after := [], [];
    } else {
      var c :| c in kids[n] && Under(kids, rank, c, m);
      var i := IndexOf(kids[n], c);
      var rest := ChildBlock(kids, rank, pre, n, i, |kids[n]|);
      var first, last := OrderEnds(kids, rank, pre, n);
      before, after := SubtreeBlock(kids, rank, pre, c, m);
      PartOfPart(first, Children(kids, rank, pre, n, i), before, Order(kids, rank, pre, m), after, rest, last);
      before, after := first + Children(kids, rank, pre, n, i) + before, after + rest + last;
    }
  }

  lemma ChildInOrder(kids: Kids, rank: Rank, pre: bool, n: Node, m: Node, b: nat) returns (before: seq<Node>, after: seq<Node>)
    requires Forest(kids, rank) && n in kids && m in kids && Under(kids, rank, n, m) && b < |kids[m]| && kids[m][b] in kids
    ensures Order(kids, rank, pre, n) == before + (Children(kids, rank, pre, m, b) + Order(kids, rank, pre, kids[m][b])) + after
  {
    var part := Children(kids, rank, pre, m, b) + Order(kids, rank, pre, kids[m][b]);
    var rest := ChildBlock(kids, rank, pre, m, b, |kids[m]|);
    var first, last := OrderEnds(kids, rank, pre, m);
    before, after := SubtreeBlock(kids, rank, pre, n, m);
    PartOfPart(before, first, [], part, rest, last, after);
    assert [] + part == part;
    before, after := before + first + [], rest + last + after;
  }

  lemma BlocksInOrder(s: seq<Node>, before: seq<Node>, first: seq<Node>, second: seq<Node>, after: seq<Node>, i: nat, j: nat)
    requires Distinct(s) && s == before + (first + second) + after
    requires i < |s| && j < |s| && s[i] in first && s[j] in second
    ensures i < j
  {
    var p :| 0 <= p < |first| && first[p] == s[i];
    var q :| 0 <= q < |second| && second[q] == s[j];
    assert s[|before| + p] == s[i] && s[|before| + |first| + q] == s[j];
  }

  /** In either order everything below a child comes before everything below a later child
      of the same parent, wherever that parent is in the tree. */
  lemma SiblingsInOrder(kids: Kids, rank: Rank, pre: bool, n: Node, m: Node, a: nat, b: nat, i: nat, j: nat)
    requires Forest(kids, rank) && n in kids && m in kids && Under(kids, rank, n, m) && a < b < |kids[m]|
    requires var s := Order(kids, rank, pre, n);
             i < |s| && j < |s| && Under(kids, rank, kids[m][a], s[i]) && Under(kids, rank, kids[m][b], s[j])
    ensures i < j
  {
    var s := Order(kids, rank, pre, n);
    assert kids[m][b] in kids[m];
    OrderOnce(kids, rank, pre, n);
    OrderOnce(kids, rank, pre, kids[m][b]);
    ChildrenOnce(kids, rank, pre, m, b);
    assert UnderChild(kids, rank, m, b, s[i]);
    var second := Order(kids, rank, pre, kids[m][b]);
    assert s[i] in Children(kids, rank, pre, m, b);
    assert s[j] in second <==> Under(kids, rank, kids[m][b], s[j]);
    var before, after := ChildInOrder(kids, rank, pre, n, m, b);
    BlocksInOrder(s, before, Children(kids, rank, pre, m, b), second, after, i, j);
  }

  /** The nodes of a list that are not cut. */
  function Filter(s: seq<Node>, cut: set<Node>): seq<Node> {
    if s == [] then [] else if s[0] in cut then Filter(s[1..], cut) else [s[0]] + Filter(s[1..], cut)
  }

  lemma {:induction false} FilterMember(s: seq<Node>, cut: set<Node>, x: Node)
    ensures x in Filter(s, cut) <==> x in s && x !in cut
  {
    if s != [] {
      FilterMember(s[1..], cut, x);
      assert x in s <==> x == s[0] || x in s[1..];
    }
  }

  /** The lists of children when some nodes are cut off from their parents. */
  function Without(kids: Kids, cut: set<Node>): Kids {
    map n | n in kids :: Filter(kids[n], cut)
  }

  lemma {:induction false} FilterNone(s: seq<Node>, cut: set<Node>)
    requires forall x | x in s :: x !in cut
    ensures Filter(s, cut) == s
  {
    if s != [] {
      assert s[0] in s && forall x | x in s[1..] :: x in s;
      FilterNone(s[1..], cut);
    }
  }

  lemma {:induction false} FilterFrom(s: seq<Node>, cut: set<Node>, i: nat)
    requires i <= |s| && forall x | x in s[i..] :: x !in cut
    ensures Filter(s, cut) == Filter(s[..i], cut) + s[i..]
  {
    if i == 0 {
      assert s[0..] == s;
      FilterNone(s, cut);
    } else {
      assert s[1..][i - 1..] == s[i..] && s[..i][1..] == s[1..][..i - 1];
      FilterFrom(s[1..], cut, i - 1);
    }
  }

  lemma {:induction false} FilterSame(s: seq<Node>, cut: set<Node>, x: Node)
    requires x !in Filter(s, cut)
    ensures Filter(s, cut + {x}) == Filter(s, cut)
  {
    if s != [] {
      FilterSame(s[1..], cut, x);
    }
  }

  lemma SkipHead(x: Node, g: seq<Node>, i: nat)
    requires 0 < i <= |g|
    ensures ([x] + g)[i] == g[i - 1]
    ensures ([x] + g)[..i] + ([x] + g)[i + 1..] == [x] + (g[..i - 1] + g[i..])
  {
  }

  lemma {:induction false} FilterOne(s: seq<Node>, cut: set<Node>, i: nat, x: Node)
    requires Distinct(s) && i < |Filter(s, cut)| && x == Filter(s, cut)[i]
    ensures Filter(s, cut + {x}) == Filter(s, cut)[..i] + Filter(s, cut)[i + 1..]
  {
    var g := Filter(s[1..], cut);
    if s[0] in cut {
      FilterOne(s[1..], cut, i, x);
    } else if i == 0 {
      FilterMember(s[1..], cut, x);
      FilterSame(s[1..], cut, x);
      assert Filter(s, cut)[1..] == g;
    } else {
      SkipHead(s[0], g, i);
      FilterOne(s[1..], cut, i - 1, x);
      FilterMember(s[1..], cut, x);
    }
  }

  /** Cutting one node more is one deletion, if the node was still a child. */
  lemma WithoutOne(kids: Kids, rank: Rank, cut: set<Node>, parent: Node, x: Node)
    requires Forest(kids, rank) && parent in kids && x in Filter(kids[parent], cut)
    ensures Without(kids, cut + {x}) == Delete(Without(kids, cut), parent, IndexOf(Without(kids, cut)[parent], x))
  {
    forall n | n in kids
      ensures Without(kids, cut + {x})[n] == Delete(Without(kids, cut), parent, IndexOf(Without(kids, cut)[parent], x))[n]
    {
      if n == parent {
        FilterOne(kids[n], cut, IndexOf(Filter(kids[n], cut), x), x);
      } else {
        FilterMember(kids[parent], cut, x);
        FilterMember(kids[n], cut, x);
        FilterSame(kids[n], cut, x);
      }
    }
  }

  lemma WithoutNone(kids: Kids, cut: set<Node>, x: Node)
    requires forall n | n in kids :: x !in Filter(kids[n], cut)
    ensures Without(kids, cut + {x}) == Without(kids, cut)
  {
    forall n | n in kids
      ensures Filter(kids[n], cut + {x}) == Filter(kids[n], cut)
    {
      FilterSame(kids[n], cut, x);
    }
  }

  lemma CleanDelete(kids: Kids, before: map<Node, Links>, after: map<Node, Links>, parent: Node, i: nat)
    requires Clean(kids, before) && parent in kids && i < |kids[parent]|
    requires Linked(Delete(kids, parent, i), after)
    requires forall n | n in kids :: after[n].parent == if n == kids[parent][i] then null else before[n].parent
    ensures Clean(Delete(kids, parent, i), after)
  {
    var now := Delete(kids, parent, i);
    forall n | n in after && after[n].parent != null
      ensures Attached(now, after, n)
    {
      assert Attached(kids, before, n);
      var s := kids[parent];
      if before[n].parent == parent {
        var j := IndexOf(s, n);
        assert j < i ==> now[parent][j] == n;
        assert i < j ==> now[parent][j - 1] == n;
      }
    }
  }

  lemma ChildParent(kids: Kids, links: map<Node, Links>, n: Node, c: Node)
    requires Linked(kids, links) && n in kids && c in kids[n]
    ensures c in links && links[c].parent == n
  {
    assert LinkedAt(kids, links, n);
    assert InPlace(links, n, kids[n], IndexOf(kids[n], c));
  }

  lemma RootUncut(kids: Kids, cut: set<Node>, links: map<Node, Links>, node: Node)
    requires Linked(Without(kids, cut), links) && node in kids && links[node].parent == null
    ensures Without(kids, cut + {node}) == Without(kids, cut)
  {
    var now := Without(kids, cut);
    forall n | n in kids
      ensures node !in Filter(kids[n], cut)
    {
      if node in now[n] {
        ChildParent(now, links, n, node);
      }
    }
    WithoutNone(kids, cut, node);
  }

  /** A callback that unlinks the node it is given, if it is one of `unlink`. */
  method Visit(node: Node, unlink: set<Node>, ghost kids: Kids, ghost rank: Rank, ghost cut: set<Node>)
    requires Forest(kids, rank) && node in kids && Clean(Without(kids, cut), Now(kids.Keys))
    modifies kids.Keys
    ensures Clean(Without(kids, cut + {node} * unlink), Now(kids.Keys))
  {
    if node in unlink {
      ghost var now := Without(kids, cut);
      ghost var before := Now(kids.Keys);
      ghost var parent := node.parent;
      assert {node} * unlink == {node};
      Remove(node, now);
      if parent != null {
        CleanDelete(now, before, Now(kids.Keys), parent, IndexOf(now[parent], node));
        WithoutOne(kids, rank, cut, parent, node);
      } else {
        RootUncut(kids, cut, before, node);
      }
    } else {
      assert cut + {node} * unlink == cut;
    }
  }

  /** What a walk below a node may still rely on: none of its remaining children is cut. */
  lemma Remaining(kids: Kids, rank: Rank, pre: bool, n: Node, i: nat)
    requires Forest(kids, rank) && n in kids && i < |kids[n]|
    ensures kids[n][i] in kids && rank[kids[n][i]] < rank[n]
    ensures Elements(Order(kids, rank, pre, kids[n][i])) <= Elements(Order(kids, rank, pre, n)) - {n}
    ensures Elements(Order(kids, rank, pre, kids[n][i])) !! Elements(Children(kids, rank, pre, n, i))
  {
    var c := kids[n][i];
    assert c in kids[n];
    OrderOnce(kids, rank, pre, n);
    OrderOnce(kids, rank, pre, c);
    ChildrenOnce(kids, rank, pre, n, i);
    forall x | x in Order(kids, rank, pre, c)
      ensures x in Order(kids, rank, pre, n) && x != n
      ensures x !in Children(kids, rank, pre, n, i)
    {
      assert x in Order(kids, rank, pre, c) <==> Under(kids, rank, c, x);
      UnderRank(kids, rank, c, x);
      if UnderChild(kids, rank, n, i, x) {
        var j :| 0 <= j < i && Under(kids, rank, kids[n][j], x);
        assert kids[n][j] in kids[n];
        Apart(kids, rank, n, kids[n][j], c, x);
      }
    }
  }

  /** What is cut off when some nodes have been visited. */
  function Gone(cut: set<Node>, visited: seq<Node>, unlink: set<Node>): set<Node> {
    cut + Elements(visited) * unlink
  }

  lemma GoneMore(cut: set<Node>, v: seq<Node>, w: seq<Node>, unlink: set<Node>)
    ensures Gone(Gone(cut, v, unlink), w, unlink) == Gone(cut, v + w, unlink)
  {
    assert Elements(v + w) == Elements(v) + Elements(w);
  }

  /** The sibling that the links give is the next child. */
  lemma NextChild(kids: Kids, links: map<Node, Links>, cut: set<Node>, n: Node, i: nat)
    requires Linked(Without(kids, cut), links) && n in kids && i <= |kids[n]|
    requires forall x | x in kids[n][i..] :: x !in cut
    ensures i < |kids[n]| ==> kids[n][i] in links && links[kids[n][i]].next == At(kids[n], i + 1)
    ensures i == 0 ==> links[n].children == At(kids[n], 0)
  {
    var s := Without(kids, cut)[n];
    assert LinkedAt(Without(kids, cut), links, n);
    FilterFrom(kids[n], cut, i);
    var k := |Filter(kids[n][..i], cut)|;
    if i < |kids[n]| {
      assert InPlace(links, n, s, k);
      assert At(s, k + 1) == At(kids[n], i + 1);
    }
  }

  lemma {:induction false} ChildrenGrow(kids: Kids, rank: Rank, pre: bool, n: Node, i: nat, j: nat)
    requires Forest(kids, rank) && n in kids && i <= j <= |kids[n]|
    ensures Elements(Children(kids, rank, pre, n, i)) <= Elements(Children(kids, rank, pre, n, j))
    decreases j
  {
    if i < j {
      ChildrenGrow(kids, rank, pre, n, i, j - 1);
    }
  }

  /** Before the i-th child is walked, no child from there on has been cut, nor any
      node below that child; so the links lead to it, and from it to the next. */
  lemma Untouched(kids: Kids, rank: Rank, pre: bool, n: Node, i: nat, cut: set<Node>, gone: set<Node>, links: map<Node, Links>)
    requires Forest(kids, rank) && n in kids && i <= |kids[n]|
    requires Elements(Order(kids, rank, pre, n)) !! cut
    requires gone <= cut + {n} + Elements(Children(kids, rank, pre, n, i))
    requires Linked(Without(kids, gone), links)
    ensures i == 0 ==> links[n].children == At(kids[n], 0)
    ensures i < |kids[n]| ==>
              var c := kids[n][i];
              && c in kids && rank[c] < rank[n]
              && c in links && links[c].next == At(kids[n], i + 1)
              && Elements(Order(kids, rank, pre, c)) !! gone
  {
    forall j | i <= j < |kids[n]|
      ensures kids[n][j] !in gone
    {
      var c := kids[n][j];
      Remaining(kids, rank, pre, n, j);
      assert c in Elements(Order(kids, rank, pre, c));
      ChildrenGrow(kids, rank, pre, n, i, j);
    }
    if i < |kids[n]| {
      Remaining(kids, rank, pre, n, i);
    }
    NextChild(kids, links, gone, n, i);
  }

  lemma PreOrderEnds(kids: Kids, rank: Rank, n: Node)
    requires Forest(kids, rank) && n in kids
    ensures [n] + Children(kids, rank, true, n, 0) == [n]
    ensures [n] + Children(kids, rank, true, n, |kids[n]|) == Order(kids, rank, true, n)
  {
  }

  /** One turn of the loop over the children: the link to the next one is read before the
      walk below this one. */
  method PreOrderTurn(node: Node, current: Node, unlink: set<Node>, ghost kids: Kids, ghost rank: Rank, ghost cut: set<Node>,
                      ghost i: nat, ghost visited: seq<Node>)
    returns (next: Node?, below: seq<Node>)
    requires Forest(kids, rank) && node in kids && i < |kids[node]| && current == kids[node][i]
    requires Elements(Order(kids, rank, true, node)) !! cut
    requires visited == [node] + Children(kids, rank, true, node, i)
    requires Clean(Without(kids, Gone(cut, visited, unlink)), Now(kids.Keys))
    modifies kids.Keys
    ensures next == At(kids[node], i + 1)
    ensures visited + below == [node] + Children(kids, rank, true, node, i + 1)
    ensures Clean(Without(kids, Gone(cut, visited + below, unlink)), Now(kids.Keys))
    decreases rank[node], 0
  {
    ghost var gone := Gone(cut, visited, unlink);
    Untouched(kids, rank, true, node, i, cut, gone, Now(kids.Keys));
    next := current.next;
    below := PreOrderForeach(current, unlink, kids, rank, gone);
    GoneMore(cut, visited, below, unlink);
    Associative([node], Children(kids, rank, true, node, i), below);
  }

  /** anjuta_project_node_pre_order_foreach, returning the nodes in the order in which
      they are visited. */
  method PreOrderForeach(node: Node, unlink: set<Node>, ghost kids: Kids, ghost rank: Rank, ghost cut: set<Node>)
    returns (visited: seq<Node>)
    requires Forest(kids, rank) && node in kids && Clean(Without(kids, cut), Now(kids.Keys))
    requires Elements(Order(kids, rank, true, node)) !! cut
    modifies kids.Keys
    ensures visited == Order(kids, rank, true, node)
    ensures Clean(Without(kids, Gone(cut, visited, unlink)), Now(kids.Keys))
    decreases rank[node], 1
  {
    PreOrderEnds(kids, rank, node);
    visited := [node];
    Visit(node, unlink, kids, rank, cut);
    ghost var i := 0;
    assert Gone(cut, visited, unlink) == cut + {node} * unlink;
    Untouched(kids, rank, true, node, 0, cut, Gone(cut, visited, unlink), Now(kids.Keys));
    var child := node.children;
    while child != null
      invariant i <= |kids[node]| && child == At(kids[node], i)
      invariant visited == [node] + Children(kids, rank, true, node, i)
      invariant Clean(Without(kids, Gone(cut, visited, unlink)), Now(kids.Keys))
      decreases |kids[node]| - i
    {
      var next, below := PreOrderTurn(node, child, unlink, kids, rank, cut, i, visited);
      child, visited, i := next, visited + below, i + 1;
    }
  }

  lemma PostOrderEnds(kids: Kids, rank: Rank, n: Node)
    requires Forest(kids, rank) && n in kids
    ensures Children(kids, rank, false, n, 0) == []
    ensures Children(kids, rank, false, n, |kids[n]|) + [n] == Order(kids, rank, false, n)
  {
  }

  /** One turn of the loop over the children. */
  method PostOrderTurn(node: Node, current: Node, unlink: set<Node>, ghost kids: Kids, ghost rank: Rank, ghost cut: set<Node>,
                       ghost i: nat, ghost visited: seq<Node>)
    returns (next: Node?, below: seq<Node>)
    requires Forest(kids, rank) && node in kids && i < |kids[node]| && current == kids[node][i]
    requires Elements(Order(kids, rank, false, node)) !! cut
    requires visited == Children(kids, rank, false, node, i)
    requires Clean(Without(kids, Gone(cut, visited, unlink)), Now(kids.Keys))
    modifies kids.Keys
    ensures next == At(kids[node], i + 1)
    ensures visited + below == Children(kids, rank, false, node, i + 1)
    ensures Clean(Without(kids, Gone(cut, visited + below, unlink)), Now(kids.Keys))
    decreases rank[node], 0
  {
    ghost var gone := Gone(cut, visited, unlink);
    Untouched(kids, rank, false, node, i, cut, gone, Now(kids.Keys));
    next := current.next;
    below := PostOrderForeach(current, unlink, kids, rank, gone);
    GoneMore(cut, visited, below, unlink);
  }

  /** anjuta_project_node_post_order_foreach */
  method PostOrderForeach(node: Node, unlink: set<Node>, ghost kids: Kids, ghost rank: Rank, ghost cut: set<Node>)
    returns (visited: seq<Node>)
    requires Forest(kids, rank) && node in kids && Clean(Without(kids, cut), Now(kids.Keys))
    requires Elements(Order(kids, rank, false, node)) !! cut
    modifies kids.Keys
    ensures visited == Order(kids, rank, false, node)
    ensures Clean(Without(kids, Gone(cut, visited, unlink)), Now(kids.Keys))
    decreases rank[node], 1
  {
    PostOrderEnds(kids, rank, node);
    visited := [];
    ghost var i := 0;
    assert Gone(cut, visited, unlink) == cut;
    Untouched(kids, rank, false, node, 0, cut, cut, Now(kids.Keys));
    var child := node.children;
    while child != null
      invariant i <= |kids[node]| && child == At(kids[node], i)
      invariant visited == Children(kids, rank, false, node, i)
      invariant Clean(Without(kids, Gone(cut, visited, unlink)), Now(kids.Keys))
      decreases |kids[node]| - i
    {
      var next, below := PostOrderTurn(node, child, unlink, kids, rank, cut, i, visited);
      child, visited, i := next, visited + below, i + 1;
    }
    ghost var gone := Gone(cut, visited, unlink);
    Visit(node, unlink, kids, rank, gone);
    GoneMore(cut, visited, [node], unlink);
    assert Elements([node]) == {node};
    visited := visited + [node];
  }

  lemma WithoutNothing(kids: Kids)
    ensures Without(kids, {}) == kids
  {
    forall n | n in kids
      ensures Filter(kids[n], {}) == kids[n]
    {
      FilterNone(kids[n], {});
    }
  }

  /** anjuta_project_node_foreach, from a whole tree: each node of the subtree is
      visited once, and those that the callback unlinks, and no others, end up cut
      off from their parents. */
  method Foreach(node: Node, preOrder: bool, unlink: set<Node>, ghost kids: Kids, ghost rank: Rank) returns (visited: seq<Node>)
    requires Forest(kids, rank) && node in kids && Clean(kids, Now(kids.Keys))
    modifies kids.Keys
    ensures visited == Order(kids, rank, preOrder, node)
    ensures Clean(Without(kids, Elements(visited) * unlink), Now(kids.Keys))
  {
    WithoutNothing(kids);
    if preOrder {
      visited := PreOrderForeach(node, unlink, kids, rank, {});
    } else {
      visited := PostOrderForeach(node, unlink, kids, rank, {});
    }
    assert Gone({}, visited, unlink) == Elements(visited) * unlink;
  }

  /** The first node of a sequence that matches, or null. */
  function First(s: seq<Node>, matching: set<Node>): Node? {
    if s == [] then null else if s[0] in matching then s[0] else First(s[1..], matching)
  }

  lemma {:induction false} FirstMatches(s: seq<Node>, matching: set<Node>)
    ensures First(s, matching) == null <==> Elements(s) !! matching
    ensures forall i | 0 <= i < |s| && s[i] in matching && Elements(s[..i]) !! matching :: First(s, matching) == s[i]
  {
    if s != [] {
      FirstMatches(s[1..], matching);
      assert Elements(s) == {s[0]} + Elements(s[1..]);
      forall i | 0 < i < |s| && s[i] in matching && Elements(s[..i]) !! matching
        ensures First(s, matching) == s[i]
      {
        assert s[..i] == [s[0]] + s[1..][..i - 1];
        assert s[0] in Elements(s[..i]) && Elements(s[1..][..i - 1]) <= Elements(s[..i]);
        assert s[1..][i - 1] == s[i];
      }
    }
  }

  lemma {:induction false} FirstSum(s: seq<Node>, t: seq<Node>, matching: set<Node>)
    ensures First(s + t, matching) == if First(s, matching) != null then First(s, matching) else First(t, matching)
  {
    if s == [] {
      assert s + t == t;
    } else {
      assert (s + t)[1..] == s[1..] + t;
      FirstSum(s[1..], t, matching);
    }
  }

  /** The links at a child that is being walked. */
  lemma AtChild(kids: Kids, rank: Rank, links: map<Node, Links>, n: Node, i: nat)
    requires Forest(kids, rank) && Linked(kids, links) && n in kids && i < |kids[n]|
    ensures var c := kids[n][i]; c in kids && rank[c] < rank[n] && links[c].next == At(kids[n], i + 1)
  {
    assert kids[n][i] in kids[n];
    assert LinkedAt(kids, links, n);
    assert InPlace(links, n, kids[n], i);
  }

  lemma {:induction false} FirstGrows(kids: Kids, rank: Rank, pre: bool, n: Node, i: nat, j: nat, matching: set<Node>)
    requires Forest(kids, rank) && n in kids && i <= j <= |kids[n]|
    requires First(Children(kids, rank, pre, n, i), matching) != null
    ensures First(Children(kids, rank, pre, n, j), matching) == First(Children(kids, rank, pre, n, i), matching)
    decreases j
  {
    if i < j {
      assert kids[n][j - 1] in kids[n];
      FirstGrows(kids, rank, pre, n, i, j - 1, matching);
      FirstSum(Children(kids, rank, pre, n, j - 1), Order(kids, rank, pre, kids[n][j - 1]), matching);
    }
  }

  /** anjuta_project_node_pre_order_traverse */
  method PreOrderTraverse(node: Node, matching: set<Node>, ghost kids: Kids, ghost rank: Rank) returns (found: Node?)
    requires Forest(kids, rank) && node in kids && Linked(kids, Now(kids.Keys))
    ensures found == First(Order(kids, rank, true, node), matching)
    decreases rank[node]
  {
    FirstSum([node], Children(kids, rank, true, node, |kids[node]|), matching);
    if node in matching {
      return node;
    }
    assert LinkedAt(kids, Now(kids.Keys), node);
    ghost var i := 0;
    var child := node.children;
    while child != null
      invariant i <= |kids[node]| && child == At(kids[node], i)
      invariant First(Children(kids, rank, true, node, i), matching) == null
      decreases |kids[node]| - i
    {
      var current := child;
      AtChild(kids, rank, Now(kids.Keys), node, i);
      child := current.next;
      current := PreOrderTraverse(current, matching, kids, rank);
      i := i + 1;
      FirstSum(Children(kids, rank, true, node, i - 1), Order(kids, rank, true, kids[node][i - 1]), matching);
      if current != null {
        FirstGrows(kids, rank, true, node, i, |kids[node]|, matching);
        return current;
      }
    }
    found := null;
  }

  /** anjuta_project_node_post_order_traverse */
  method PostOrderTraverse(node: Node, matching: set<Node>, ghost kids: Kids, ghost rank: Rank) returns (found: Node?)
    requires Forest(kids, rank) && node in kids && Linked(kids, Now(kids.Keys))
    ensures found == First(Order(kids, rank, false, node), matching)
    decreases rank[node]
  {
    FirstSum(Children(kids, rank, false, node, |kids[node]|), [node], matching);
    assert LinkedAt(kids, Now(kids.Keys), node);
    ghost var i := 0;
    var child := node.children;
    while child != null
      invariant i <= |kids[node]| && child == At(kids[node], i)
      invariant First(Children(kids, rank, false, node, i), matching) == null
      decreases |kids[node]| - i
    {
      var current := child;
      AtChild(kids, rank, Now(kids.Keys), node, i);
      child := current.next;
      current := PostOrderTraverse(current, matching, kids, rank);
      i := i + 1;
      FirstSum(Children(kids, rank, false, node, i - 1), Order(kids, rank, false, kids[node][i - 1]), matching);
      if current != null {
        FirstGrows(kids, rank, false, node, i, |kids[node]|, matching);
        return current;
      }
    }
    found := if node in matching then node else null;
  }

  /** anjuta_project_node_traverse: the first match in the order asked for. */
  method Traverse(node: Node, preOrder: bool, matching: set<Node>, ghost kids: Kids, ghost rank: Rank) returns (found: Node?)
    requires Forest(kids, rank) && node in kids && Linked(kids, Now(kids.Keys))
    ensures found == null <==> forall x | x in kids && Under(kids, rank, node, x) :: x !in matching
    ensures var s := Order(kids, rank, preOrder, node);
            forall i | 0 <= i < |s| && s[i] in matching && Elements(s[..i]) !! matching :: found == s[i]
  {
    FirstMatches(Order(kids, rank, preOrder, node), matching);
    OrderOnce(kids, rank, preOrder, node);
    forall x | Under(kids, rank, node, x)
      ensures x in kids && x in Order(kids, rank, preOrder, node)
    {
      UnderRank(kids, rank, node, x);
    }
    if preOrder {
      found := PreOrderTraverse(node, matching, kids, rank);
    } else {
      found := PostOrderTraverse(node, matching, kids, rank);
    }
  }

  lemma {:induction false} UnderStill(kids: Kids, rank: Rank, now: Kids, r: Rank, n: Node, x: Node)
    requires Forest(kids, rank) && Forest(now, r) && kids.Keys == now.Keys && n in kids
    requires forall m, c | m in kids && c in kids[m] :: c in now[m]
    requires Under(kids, rank, n, x)
    ensures x in now && r[x] <= r[n]
    decreases rank[n]
  {
    if x != n {
      var c :| c in kids[n] && Under(kids, rank, c, x);
      assert c in now[n];
      UnderStill(kids, rank, now, r, c, x);
    }
  }

  ghost function Raised(kids: Kids, rank: Rank, node: Node): Rank
    requires Forest(kids, rank) && node in kids
  {
    map n | n in kids :: if Under(kids, rank, node, n) then rank[n] else rank[n] + rank[node] + 1
  }

  lemma RaisedFalls(kids: Kids, rank: Rank, node: Node, n: Node, c: Node)
    requires Forest(kids, rank) && node in kids && n in kids && c in kids[n]
    ensures c in kids && Raised(kids, rank, node)[c] < Raised(kids, rank, node)[n]
  {
    if Under(kids, rank, node, n) {
      UnderBelow(kids, rank, node, n, c);
    } else if Under(kids, rank, node, c) {
      UnderRank(kids, rank, node, c);
    }
  }

  lemma InsertedChild(kids: Kids, parent: Node, i: nat, node: Node, n: Node, c: Node)
    requires parent in kids && i <= |kids[parent]| && n in kids
    requires c in Insert(kids, parent, i, node)[n]
    ensures c in kids[n] || (n == parent && c == node)
  {
  }

  lemma InsertedForest(kids: Kids, rank: Rank, parent: Node, i: nat, node: Node)
    requires Forest(kids, rank) && parent in kids && node in kids && i <= |kids[parent]|
    requires forall n | n in kids :: node !in kids[n]
    requires !Under(kids, rank, node, parent)
    ensures Forest(Insert(kids, parent, i, node), Raised(kids, rank, node))
  {
    var now := Insert(kids, parent, i, node);
    var r := Raised(kids, rank, node);
    DistinctInsert(kids[parent], i, node);
    forall n, c | n in now && c in now[n]
      ensures c in now && r[c] < r[n]
    {
      InsertedChild(kids, parent, i, node, n, c);
      if c in kids[n] {
        RaisedFalls(kids, rank, node, n, c);
      }
    }
    forall n, m, c | n in now && m in now && c in now[n] && c in now[m]
      ensures n == m
    {
      InsertedChild(kids, parent, i, node, n, c);
      InsertedChild(kids, parent, i, node, m, c);
    }
  }

  /** Inserting a detached node gives a forest again exactly when the new parent is
      not in the subtree of the node. */
  lemma InsertForest(kids: Kids, rank: Rank, parent: Node, i: nat, node: Node)
    requires Forest(kids, rank) && parent in kids && node in kids && i <= |kids[parent]|
    requires forall n | n in kids :: node !in kids[n]
    ensures (exists r :: Forest(Insert(kids, parent, i, node), r)) <==> !Under(kids, rank, node, parent)
  {
    var now := Insert(kids, parent, i, node);
    assert node in now[parent];
    assert forall c | c in kids[parent] :: c in now[parent];
    if Under(kids, rank, node, parent) {
      forall r: Rank
        ensures !Forest(now, r)
      {
        if Forest(now, r) {
          UnderStill(kids, rank, now, r, node, parent);
        }
      }
    } else {
      InsertedForest(kids, rank, parent, i, node);
    }
  }

  /** Linked nodes whose ranks fall form a forest. */
  lemma LinkedForest(kids: Kids, rank: Rank, links: map<Node, Links>)
    requires Linked(kids, links) && kids.Keys == rank.Keys
    requires forall n, c | n in kids && c in kids[n] && c in kids :: rank[c] < rank[n]
    ensures Forest(kids, rank)
  {
    forall n | n in kids
      ensures Distinct(kids[n]) && forall c | c in kids[n] :: c in kids && links[c].parent == n
    {
      assert LinkedAt(kids, links, n);
      forall c | c in kids[n]
        ensures c in kids && links[c].parent == n
      {
        ChildParent(kids, links, n, c);
      }
    }
  }

  /** The links follow from the lists of children and the parents. */
  lemma LinksDetermined(kids: Kids, a: map<Node, Links>, b: map<Node, Links>)
    requires Linked(kids, a) && Linked(kids, b)
    requires forall n | n in kids :: a[n].parent == b[n].parent
    ensures a == b
  {
    forall n | n in kids
      ensures a[n] == b[n]
    {
      assert LinkedAt(kids, a, n) && LinkedAt(kids, b, n);
      if Attached(kids, a, n) {
        var p := a[n].parent;
        var i := IndexOf(kids[p], n);
        assert LinkedAt(kids, a, p) && LinkedAt(kids, b, p);
        assert InPlace(a, p, kids[p], i) && InPlace(b, p, kids[p], i);
      }
    }
  }

  /** Inserting a detached node and removing it again gives back every link. */
  lemma InsertRemoveRestores(kids: Kids, before: map<Node, Links>, after: map<Node, Links>, parent: Node, i: nat, node: Node)
    requires Linked(kids, before) && parent in kids && node in kids && i <= |kids[parent]| && before[node].parent == null
    requires var now := Insert(kids, parent, i, node);
             node in now[parent] && Linked(Delete(now, parent, IndexOf(now[parent], node)), after)
    requires forall n | n in before && n in after :: after[n].parent == before[n].parent
    ensures after == before
  {
    var now := Insert(kids, parent, i, node);
    if node in kids[parent] {
      ChildParent(kids, before, parent, node);
    }
    assert IndexOf(now[parent], node) == i;
    DeleteInsert(kids, parent, i, node);
    LinksDetermined(kids, before, after);
  }
}
