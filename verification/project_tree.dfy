/** The node tree of libanjuta/anjuta-project.c: siblings are doubly linked, a
    parent knows its first child.  The links of a set of nodes are described by the
    list of children of every node. */
module ProjectTree {
  import opened Sequences

  class Node {
    var parent: Node?
    var prev: Node?
    var next: Node?
    var children: Node?

    constructor ()
      ensures parent == prev == next == children == null
    {
      parent, prev, next, children := null, null, null, null;
    }
  }

  type Kids = map<Node, seq<Node>>

  datatype Links = Links(parent: Node?, prev: Node?, next: Node?, children: Node?)

  /** The links of some nodes, now. */
  ghost function Now(nodes: set<Node>): map<Node, Links>
    reads nodes
  {
    map n | n in nodes :: Links(n.parent, n.prev, n.next, n.children)
  }

  function At(s: seq<Node>, i: int): Node? {
    if 0 <= i < |s| then s[i] else null
  }

  /** The links of the i-th child of a node. */
  predicate InPlace(links: map<Node, Links>, n: Node, s: seq<Node>, i: nat)
    requires i < |s|
  {
    && s[i] in links
    && links[s[i]].parent == n && links[s[i]].prev == At(s, i - 1) && links[s[i]].next == At(s, i + 1)
  }

  /** A node that is somewhere in the list of its parent.  A node that is not may
      still have its parent filled in. */
  predicate Attached(kids: Kids, links: map<Node, Links>, n: Node)
    requires n in links
  {
    links[n].parent != null && links[n].parent in kids && n in kids[links[n].parent]
  }

  ghost predicate LinkedAt(kids: Kids, links: map<Node, Links>, n: Node)
    requires n in kids && n in links
  {
    var s := kids[n];
    && Distinct(s)
    && (forall i :: 0 <= i < |s| ==> s[i] in kids && InPlace(links, n, s, i))
    && links[n].children == At(s, 0)
    && (links[n].parent == null || links[n].parent in kids)
    && (!Attached(kids, links, n) ==> links[n].prev == null && links[n].next == null)
  }

  /** The links of the nodes are those of the lists of children, and no others. */
  ghost predicate Linked(kids: Kids, links: map<Node, Links>) {
    && kids.Keys == links.Keys
    && forall n {:trigger LinkedAt(kids, links, n)} | n in kids :: LinkedAt(kids, links, n)
  }

  function IndexOf(s: seq<Node>, x: Node): (i: nat)
    requires x in s
    ensures i < |s| && s[i] == x
  {
    if s[0] == x then 0 else 1 + IndexOf(s[1..], x)
  }

  function Insert(kids: Kids, parent: Node, i: nat, node: Node): Kids
    requires parent in kids && i <= |kids[parent]|
  {
    kids[parent := kids[parent][..i] + [node] + kids[parent][i..]]
  }

  function Delete(kids: Kids, parent: Node, i: nat): Kids
    requires parent in kids && i < |kids[parent]|
  {
    kids[parent := kids[parent][..i] + kids[parent][i + 1..]]
  }

  lemma DeleteInsert(kids: Kids, parent: Node, i: nat, node: Node)
    requires parent in kids && i <= |kids[parent]|
    ensures Delete(Insert(kids, parent, i, node), parent, i) == kids
  {
    var s := kids[parent][..i] + [node] + kids[parent][i..];
    assert s[..i] + s[i + 1..] == kids[parent];
  }

  /** What putting a node between two neighbours writes. */
  ghost predicate Spliced(before: map<Node, Links>, after: map<Node, Links>, parent: Node, prev: Node?, next: Node?, node: Node) {
    && before.Keys == after.Keys
    && forall n | n in after :: after[n] == Links(
         if n == node then parent else before[n].parent,
         if n == node then prev else if n == next then node else before[n].prev,
         if n == node then next else if n == prev then node else before[n].next,
         if n == parent && prev == null then node else before[n].children)
  }

  /** What an insertion writes. */
  ghost predicate Inserted(s: seq<Node>, before: map<Node, Links>, after: map<Node, Links>, parent: Node, i: nat, node: Node)
    requires i <= |s|
  {
    Spliced(before, after, parent, At(s, i - 1), At(s, i), node)
  }

  lemma InsertAt(s: seq<Node>, i: nat, node: Node, t: seq<Node>, j: nat)
    requires i <= |s| && t == s[..i] + [node] + s[i..] && j < |t|
    ensures t[j] == if j < i then s[j] else if j == i then node else s[j - 1]
    ensures At(t, j - 1) == if j <= i then At(s, j - 1) else if j == i + 1 then node else At(s, j - 2)
    ensures At(t, j + 1) == if j + 1 < i then At(s, j + 1) else if j + 1 == i then node else At(s, j)
  {
  }

  lemma DistinctInsert(s: seq<Node>, i: nat, node: Node)
    requires i <= |s| && Distinct(s) && node !in s
    ensures Distinct(s[..i] + [node] + s[i..])
  {
  }

  /** The children of the node inserted into. */
  lemma InsertAtParent(kids: Kids, before: map<Node, Links>, after: map<Node, Links>, parent: Node, i: nat, node: Node)
    requires Linked(kids, before)
    requires parent in kids && i <= |kids[parent]| && node in kids && !Attached(kids, before, node)
    requires Inserted(kids[parent], before, after, parent, i, node)
    ensures LinkedAt(Insert(kids, parent, i, node), after, parent)
  {
    var s := kids[parent];
    var now := Insert(kids, parent, i, node);
    var t := now[parent];
    assert LinkedAt(kids, before, parent) && LinkedAt(kids, before, node);
    assert node !in s;
    DistinctInsert(s, i, node);
    forall j | 0 <= j < |t|
      ensures t[j] in kids && InPlace(after, parent, t, j)
    {
      InsertAt(s, i, node, t, j);
      if j < i { assert InPlace(before, parent, s, j); }
      if j > i { assert InPlace(before, parent, s, j - 1); }
    }
  }

  lemma Foreign(kids: Kids, links: map<Node, Links>, parent: Node, i: int, c: Node)
    requires Linked(kids, links) && parent in kids && c in links && links[c].parent != parent
    ensures c != At(kids[parent], i)
  {
    assert LinkedAt(kids, links, parent);
    if 0 <= i < |kids[parent]| {
      assert InPlace(links, parent, kids[parent], i);
    }
  }

  /** The other nodes. */
  lemma InsertElsewhere(kids: Kids, before: map<Node, Links>, after: map<Node, Links>, parent: Node, i: nat, node: Node, n: Node)
    requires Linked(kids, before)
    requires parent in kids && i <= |kids[parent]| && node in kids && !Attached(kids, before, node)
    requires Inserted(kids[parent], before, after, parent, i, node)
    requires n in kids && n != parent
    ensures LinkedAt(Insert(kids, parent, i, node), after, n)
  {
    var s := kids[n];
    assert LinkedAt(kids, before, parent) && LinkedAt(kids, before, node) && LinkedAt(kids, before, n);
    forall j | 0 <= j < |s|
      ensures s[j] in kids && InPlace(after, n, s, j)
    {
      assert InPlace(before, n, s, j);
      assert s[j] != node;
      Foreign(kids, before, parent, i, s[j]);
      Foreign(kids, before, parent, i - 1, s[j]);
    }
  }

  lemma InsertLinks(kids: Kids, before: map<Node, Links>, after: map<Node, Links>, parent: Node, i: nat, node: Node)
    requires Linked(kids, before)
    requires parent in kids && i <= |kids[parent]| && node in kids && !Attached(kids, before, node)
    requires Inserted(kids[parent], before, after, parent, i, node)
    ensures Linked(Insert(kids, parent, i, node), after)
  {
    var now := Insert(kids, parent, i, node);
    forall n | n in now
      ensures LinkedAt(now, after, n)
    {
      if n == parent {
        InsertAtParent(kids, before, after, parent, i, node);
      } else {
        InsertElsewhere(kids, before, after, parent, i, node, n);
      }
    }
  }

  /** A node without neighbours, and others. */
  predicate Free(links: map<Node, Links>, node: Node, others: set<Node?>) {
    && node in links && links[node].prev == null && links[node].next == null
    && forall o | o in others && o != null :: o in links && o != node
  }

  /** Puts a node in front of a sibling. */
  method SpliceBefore(parent: Node, sibling: Node, node: Node, ghost nodes: set<Node>)
    requires parent in nodes && Free(Now(nodes), node, {sibling, sibling.prev}) && sibling.prev != sibling
    modifies nodes
    ensures Spliced(old(Now(nodes)), Now(nodes), parent, old(sibling.prev), sibling, node)
  {
    node.parent := parent;
    if sibling.prev != null {
      node.prev := sibling.prev;
      node.prev.next := node;
      node.next := sibling;
      sibling.prev := node;
    } else {
      node.parent.children := node;
      node.next := sibling;
      sibling.prev := node;
    }
  }

  /** Puts a node behind a sibling, or in front of all children. */
  method SpliceAfter(parent: Node, sibling: Node?, node: Node, ghost nodes: set<Node>)
    requires parent in nodes && Free(Now(nodes), node, {sibling, if sibling != null then sibling.next else parent.children})
    requires sibling != null ==> sibling.next != sibling
    modifies nodes
    ensures Spliced(old(Now(nodes)), Now(nodes), parent, sibling, old(if sibling != null then sibling.next else parent.children), node)
  {
    node.parent := parent;
    if sibling != null {
      if sibling.next != null {
        sibling.next.prev := node;
      }
      node.next := sibling.next;
      node.prev := sibling;
      sibling.next := node;
    } else {
      if parent.children != null {
        node.next := parent.children;
        parent.children.prev := node;
      }
      parent.children := node;
    }
  }

  /** A node that is not attached, the parent and a place among its children. */
  lemma FreePlace(kids: Kids, links: map<Node, Links>, parent: Node, node: Node, i: nat)
    requires Linked(kids, links) && parent in kids && node in kids && !Attached(kids, links, node) && i <= |kids[parent]|
    ensures Free(links, node, {At(kids[parent], i - 1), At(kids[parent], i)})
    ensures links[parent].children == At(kids[parent], 0)
    ensures i > 0 ==> links[kids[parent][i - 1]].next == At(kids[parent], i) != kids[parent][i - 1]
    ensures i < |kids[parent]| ==> links[kids[parent][i]].prev == At(kids[parent], i - 1) != kids[parent][i]
  {
    assert LinkedAt(kids, links, parent) && LinkedAt(kids, links, node);
    assert i > 0 ==> InPlace(links, parent, kids[parent], i - 1);
    assert i < |kids[parent]| ==> InPlace(links, parent, kids[parent], i);
  }

  /** The last of some linked nodes. */
  method LastOf(first: Node, ghost s: seq<Node>) returns (last: Node)
    requires s != [] && s[0] == first && forall j | 0 <= j < |s| :: s[j].next == At(s, j + 1)
    ensures last == s[|s| - 1]
  {
    last := first;
    ghost var k := 0;
    while last.next != null
      invariant 0 <= k < |s| && last == s[k]
      decreases |s| - k
    {
      last := last.next;
      k := k + 1;
    }
  }

  /** Puts a node behind all children. */
  method LinkLast(parent: Node, node: Node, ghost kids: Kids)
    requires Linked(kids, Now(kids.Keys)) && parent in kids && node in kids && !Attached(kids, Now(kids.Keys), node)
    modifies kids.Keys
    ensures Inserted(kids[parent], old(Now(kids.Keys)), Now(kids.Keys), parent, |kids[parent]|, node)
  {
    ghost var s := kids[parent];
    ghost var before := Now(kids.Keys);
    assert LinkedAt(kids, before, parent) && LinkedAt(kids, before, node);
    assert forall j | 0 <= j < |s| :: InPlace(before, parent, s, j);
    node.parent := parent;
    if parent.children != null {
      var last := LastOf(parent.children, s);
      node.prev := last;
      last.next := node;
    } else {
      node.parent.children := node;
    }
  }

  /** anjuta_project_node_insert_before: at the place of the sibling, or at the end. */
  method InsertBefore(parent: Node, sibling: Node?, node: Node, ghost kids: Kids)
    requires Linked(kids, Now(kids.Keys)) && parent in kids && node in kids && !Attached(kids, Now(kids.Keys), node)
    requires sibling != null ==> sibling in kids[parent]
    modifies kids.Keys
    ensures Linked(Insert(kids, parent, if sibling == null then |kids[parent]| else IndexOf(kids[parent], sibling), node), Now(kids.Keys))
    ensures forall n | n in kids && n != node :: n.parent == old(n.parent)
  {
    ghost var before := Now(kids.Keys);
    ghost var i := if sibling == null then |kids[parent]| else IndexOf(kids[parent], sibling);
    FreePlace(kids, before, parent, node, i);
    if sibling != null {
      SpliceBefore(parent, sibling, node, kids.Keys);
    } else {
      LinkLast(parent, node, kids);
    }
    InsertLinks(kids, before, Now(kids.Keys), parent, i, node);
    assert forall n | n in kids :: n.parent == Now(kids.Keys)[n].parent;
  }

  /** anjuta_project_node_insert_after: behind the sibling, or at the front. */
  method InsertAfter(parent: Node, sibling: Node?, node: Node, ghost kids: Kids)
    requires Linked(kids, Now(kids.Keys)) && parent in kids && node in kids && !Attached(kids, Now(kids.Keys), node)
    requires sibling != null ==> sibling in kids[parent]
    modifies kids.Keys
    ensures Linked(Insert(kids, parent, if sibling == null then 0 else IndexOf(kids[parent], sibling) + 1, node), Now(kids.Keys))
    ensures forall n | n in kids && n != node :: n.parent == old(n.parent)
  {
    ghost var before := Now(kids.Keys);
    ghost var i := if sibling == null then 0 else IndexOf(kids[parent], sibling) + 1;
    FreePlace(kids, before, parent, node, i);
    SpliceAfter(parent, sibling, node, kids.Keys);
    InsertLinks(kids, before, Now(kids.Keys), parent, i, node);
    assert forall n | n in kids :: n.parent == Now(kids.Keys)[n].parent;
  }

  /** anjuta_project_node_prepend */
  method Prepend(parent: Node, node: Node, ghost kids: Kids)
    requires Linked(kids, Now(kids.Keys)) && parent in kids && node in kids && !Attached(kids, Now(kids.Keys), node)
    modifies kids.Keys
    ensures Linked(Insert(kids, parent, 0, node), Now(kids.Keys))
    ensures forall n | n in kids && n != node :: n.parent == old(n.parent)
  {
    assert LinkedAt(kids, Now(kids.Keys), parent);
    InsertBefore(parent, parent.children, node, kids);
  }

  /** anjuta_project_node_append */
  method Append(parent: Node, node: Node, ghost kids: Kids)
    requires Linked(kids, Now(kids.Keys)) && parent in kids && node in kids && !Attached(kids, Now(kids.Keys), node)
    modifies kids.Keys
    ensures Linked(Insert(kids, parent, |kids[parent]|, node), Now(kids.Keys))
    ensures forall n | n in kids && n != node :: n.parent == old(n.parent)
  {
    InsertBefore(parent, null, node, kids);
  }

  /** What the removal of the i-th child of a node writes. */
  ghost predicate Removed(s: seq<Node>, before: map<Node, Links>, after: map<Node, Links>, parent: Node, i: nat)
    requires i < |s|
  {
    && before.Keys == after.Keys
    && forall n | n in after :: after[n] == Links(
         if n == s[i] then null else before[n].parent,
         if n == s[i] then null else if n == At(s, i + 1) then At(s, i - 1) else before[n].prev,
         if n == s[i] then null else if n == At(s, i - 1) then At(s, i + 1) else before[n].next,
         if n == parent && i == 0 then At(s, 1) else before[n].children)
  }

  lemma DeleteAt(s: seq<Node>, i: nat, t: seq<Node>, j: nat)
    requires i < |s| && t == s[..i] + s[i + 1..] && j < |t|
    ensures t[j] == if j < i then s[j] else s[j + 1]
    ensures At(t, j - 1) == if j <= i then At(s, j - 1) else At(s, j)
    ensures At(t, j + 1) == if j + 1 < i then At(s, j + 1) else At(s, j + 2)
  {
  }

  lemma DistinctDelete(s: seq<Node>, i: nat)
    requires i < |s| && Distinct(s)
    ensures Distinct(s[..i] + s[i + 1..]) && s[i] !in s[..i] + s[i + 1..]
  {
  }

  lemma DeleteAtParent(kids: Kids, before: map<Node, Links>, after: map<Node, Links>, parent: Node, i: nat)
    requires Linked(kids, before)
    requires parent in kids && i < |kids[parent]|
    requires Removed(kids[parent], before, after, parent, i)
    ensures LinkedAt(Delete(kids, parent, i), after, parent)
  {
    var s := kids[parent];
    var t := s[..i] + s[i + 1..];
    assert LinkedAt(kids, before, parent);
    DistinctDelete(s, i);
    forall j | 0 <= j < |t|
      ensures t[j] in kids && InPlace(after, parent, t, j)
    {
      DeleteAt(s, i, t, j);
      assert InPlace(before, parent, s, if j < i then j else j + 1);
    }
  }

  lemma DeleteElsewhere(kids: Kids, before: map<Node, Links>, after: map<Node, Links>, parent: Node, i: nat, n: Node)
    requires Linked(kids, before)
    requires parent in kids && i < |kids[parent]|
    requires Removed(kids[parent], before, after, parent, i)
    requires n in kids && n != parent
    ensures LinkedAt(Delete(kids, parent, i), after, n)
  {
    var s := kids[n];
    assert LinkedAt(kids, before, parent) && LinkedAt(kids, before, n);
    assert InPlace(before, parent, kids[parent], i);
    forall j | 0 <= j < |s|
      ensures s[j] in kids && InPlace(after, n, s, j)
    {
      assert InPlace(before, n, s, j);
      Foreign(kids, before, parent, i, s[j]);
      Foreign(kids, before, parent, i - 1, s[j]);
      Foreign(kids, before, parent, i + 1, s[j]);
    }
  }

  lemma DeleteLinks(kids: Kids, before: map<Node, Links>, after: map<Node, Links>, parent: Node, i: nat)
    requires Linked(kids, before)
    requires parent in kids && i < |kids[parent]|
    requires Removed(kids[parent], before, after, parent, i)
    ensures Linked(Delete(kids, parent, i), after)
  {
    var now := Delete(kids, parent, i);
    forall n | n in now
      ensures LinkedAt(now, after, n)
    {
      if n == parent {
        DeleteAtParent(kids, before, after, parent, i);
      } else {
        DeleteElsewhere(kids, before, after, parent, i, n);
      }
    }
  }

  predicate Childless(kids: Kids, parent: Node?) {
    parent != null && parent in kids ==> kids[parent] == []
  }

  lemma RemoveFilled(kids: Kids, before: map<Node, Links>, after: map<Node, Links>, node: Node)
    requires Linked(kids, before) && node in kids && !Attached(kids, before, node)
    requires before.Keys == after.Keys
    requires forall n | n in after :: after[n] ==
               Links(if n == node then null else before[n].parent, before[n].prev, before[n].next,
                     if n == before[node].parent then null else before[n].children)
    ensures Linked(kids, after) <==> Childless(kids, before[node].parent)
  {
    var parent := before[node].parent;
    assert LinkedAt(kids, before, node);
    if !Childless(kids, parent) {
      assert !LinkedAt(kids, after, parent);
    } else {
      forall n | n in kids
        ensures LinkedAt(kids, after, n)
      {
        assert LinkedAt(kids, before, n);
        assert forall i :: 0 <= i < |kids[n]| && InPlace(before, n, kids[n], i) ==> InPlace(after, n, kids[n], i);
      }
    }
  }

  /** A node's neighbours are nodes, and others than the node. */
  predicate Apart(links: map<Node, Links>, node: Node) {
    && node in links
    && (links[node].prev != null ==> links[node].prev in links && links[node].prev != node)
    && (links[node].next != null ==> links[node].next in links && links[node].next != node && links[node].next != links[node].prev)
    && (links[node].parent != null ==> links[node].parent in links)
  }

  /** What taking a node from between its neighbours writes. */
  ghost predicate Unlinked(before: map<Node, Links>, after: map<Node, Links>, node: Node)
    requires node in before
  {
    var l := before[node];
    && before.Keys == after.Keys
    && forall n | n in after :: after[n] == Links(
         if n == node then null else before[n].parent,
         if n == node then null else if n == l.next then l.prev else before[n].prev,
         if n == node then null else if n == l.prev then l.next else before[n].next,
         if n == l.parent && l.prev == null then l.next else before[n].children)
  }

  method Unlink(node: Node, ghost nodes: set<Node>)
    requires Apart(Now(nodes), node)
    modifies nodes
    ensures Unlinked(old(Now(nodes)), Now(nodes), node)
  {
    if node.prev != null {
      node.prev.next := node.next;
    } else if node.parent != null {
      node.parent.children := node.next;
    }
    node.parent := null;
    if node.next != null {
      node.next.prev := node.prev;
      node.next := null;
    }
    node.prev := null;
  }

  /** Around a child, that is what its removal writes. */
  lemma UnlinkedChild(kids: Kids, before: map<Node, Links>, node: Node)
    requires Linked(kids, before) && node in kids && Attached(kids, before, node)
    ensures var parent := before[node].parent; var i := IndexOf(kids[parent], node);
            && Apart(before, node)
            && forall after: map<Node, Links> | Unlinked(before, after, node) :: Removed(kids[parent], before, after, parent, i)
  {
    var parent := before[node].parent;
    var s, i := kids[parent], IndexOf(kids[parent], node);
    assert LinkedAt(kids, before, parent) && LinkedAt(kids, before, node) && InPlace(before, parent, s, i);
    assert i > 0 ==> InPlace(before, parent, s, i - 1);
    assert i + 1 < |s| ==> InPlace(before, parent, s, i + 1);
  }

  lemma UnlinkedFilled(kids: Kids, before: map<Node, Links>, after: map<Node, Links>, node: Node)
    requires Linked(kids, before) && node in kids && !Attached(kids, before, node)
    requires Unlinked(before, after, node)
    ensures Linked(kids, after) <==> Childless(kids, before[node].parent)
  {
    assert LinkedAt(kids, before, node);
    RemoveFilled(kids, before, after, node);
  }

  lemma FilledApart(kids: Kids, links: map<Node, Links>, node: Node)
    requires Linked(kids, links) && node in kids && !Attached(kids, links, node)
    ensures Apart(links, node)
  {
    assert LinkedAt(kids, links, node);
  }

  /** anjuta_project_node_remove.  A node that is only filled in with a parent is not
      among its children, and removing it cuts them all off. */
  method Remove(node: Node, ghost kids: Kids)
    requires Linked(kids, Now(kids.Keys)) && node in kids
    modifies kids.Keys
    ensures old(Attached(kids, Now(kids.Keys), node)) ==>
              var parent := old(node.parent); Linked(Delete(kids, parent, IndexOf(kids[parent], node)), Now(kids.Keys))
    ensures !old(Attached(kids, Now(kids.Keys), node)) ==>
              (Linked(kids, Now(kids.Keys)) <==> Childless(kids, old(node.parent)))
    ensures node.parent == null && forall n | n in kids && n != node :: n.parent == old(n.parent)
  {
    ghost var before := Now(kids.Keys);
    if Attached(kids, before, node) {
      UnlinkedChild(kids, before, node);
    } else {
      FilledApart(kids, before, node);
    }
    Unlink(node, kids.Keys);
    ghost var after := Now(kids.Keys);
    assert forall n | n in kids :: n.parent == after[n].parent;
    if Attached(kids, before, node) {
      var parent := before[node].parent;
      DeleteLinks(kids, before, after, parent, IndexOf(kids[parent], node));
    } else {
      UnlinkedFilled(kids, before, after, node);
    }
  }

  /** No node is merely filled in with a parent. */
  ghost predicate Clean(kids: Kids, links: map<Node, Links>) {
    && Linked(kids, links)
    && forall n | n in links :: links[n].parent == null || Attached(kids, links, n)
  }

  /** check_node, reporting whether it finds nothing to complain about: of the nodes of a
      linked tree, exactly those that only have their parent filled in are reported. */
  method CheckNode(node: Node, ghost kids: Kids) returns (ok: bool)
    requires Linked(kids, Now(kids.Keys)) && node in kids
    ensures ok <==> node.parent == null || Attached(kids, Now(kids.Keys), node)
  {
    ghost var links := Now(kids.Keys);
    assert LinkedAt(kids, links, node);
    assert kids[node] != [] ==> InPlace(links, node, kids[node], 0);
    if node.parent != null {
      assert LinkedAt(kids, links, node.parent);
      if node in kids[node.parent] {
        ghost var s := kids[node.parent];
        ghost var i := IndexOf(s, node);
        assert InPlace(links, node.parent, s, i);
        assert 0 < i ==> InPlace(links, node.parent, s, i - 1);
        assert i + 1 < |s| ==> InPlace(links, node.parent, s, i + 1);
      }
    }
    ok := true;
    if node.prev == null {
      if node.parent != null && node.parent.children != node {
        ok := false;
      }
    } else {
      if node.prev.next != node || node.prev.parent != node.parent {
        ok := false;
      }
    }
    if node.next != null && node.next.prev != node {
      ok := false;
    }
    if node.children != null && node.children.parent != node {
      ok := false;
    }
  }
}
