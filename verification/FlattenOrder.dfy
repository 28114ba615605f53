/** The order in which a menu forest is flattened: parents before their children. The code that nests
    the list again relies on it. */
module FlattenOrder {

  import opened Common
  import opened Navigation

  /** The item at k has its parent somewhere before it. */
  ghost predicate ParentBefore(list: seq<Node>, k: nat)
    requires k < |list|
  {
    exists j :: 0 <= j < k && IsParentOf(list[j], list[k])
  }

  predicate IsParentOf(parent: Node, item: Node) {
    parent.id.Some? && parent.id == item.parent && parent.section == item.section
  }

  /** Each item has its parent before it, or its parent is one of these. */
  ghost predicate Grounded(list: seq<Node>, parents: seq<Node>) {
    forall k :: 0 <= k < |list| ==>
      ParentBefore(list, k) || exists r :: 0 <= r < |parents| && IsParentOf(parents[r], list[k])
  }

  lemma GroundedJoin(a: seq<Node>, b: seq<Node>, parents: seq<Node>)
    requires Grounded(a, parents) && Grounded(b, parents)
    ensures Grounded(a + b, parents)
  {
    var list := a + b;
    forall k | 0 <= k < |list|
      ensures ParentBefore(list, k) || exists r :: 0 <= r < |parents| && IsParentOf(parents[r], list[k])
    {
      if k < |a| && ParentBefore(a, k) {
        var j :| 0 <= j < k && IsParentOf(a[j], a[k]);
        assert IsParentOf(list[j], list[k]);
      } else if k >= |a| && ParentBefore(b, k - |a|) {
        var j :| 0 <= j < k - |a| && IsParentOf(b[j], b[k - |a|]);
        assert IsParentOf(list[|a| + j], list[k]);
      }
    }
  }

  /** Putting the parents in front. */
  lemma ParentsInFront(parents: seq<Node>, list: seq<Node>, above: seq<Node>)
    requires Grounded(parents, above) && Grounded(list, parents)
    ensures Grounded(parents + list, above)
  {
    var all := parents + list;
    forall k | 0 <= k < |all|
      ensures ParentBefore(all, k) || exists r :: 0 <= r < |above| && IsParentOf(above[r], all[k])
    {
      if k < |parents| {
        if ParentBefore(parents, k) {
          var j :| 0 <= j < k && IsParentOf(parents[j], parents[k]);
          assert IsParentOf(all[j], all[k]);
        }
      } else if ParentBefore(list, k - |parents|) {
        var j :| 0 <= j < k - |parents| && IsParentOf(list[j], list[k - |parents|]);
        assert IsParentOf(all[|parents| + j], all[k]);
      } else {
        var r :| 0 <= r < |parents| && IsParentOf(parents[r], list[k - |parents|]);
        assert IsParentOf(all[r], all[k]);
      }
    }
  }

  lemma GroundedMore(list: seq<Node>, parent: Node, parents: seq<Node>, r: nat)
    requires Grounded(list, [parent]) && r < |parents| && parents[r] == parent
    ensures Grounded(list, parents)
  {
    forall k | 0 <= k < |list|
      ensures ParentBefore(list, k) || exists r :: 0 <= r < |parents| && IsParentOf(parents[r], list[k])
    {
      if !ParentBefore(list, k) { assert IsParentOf(parents[r], list[k]); }
    }
  }

  /** All these items name the parent. */
  lemma AllNameParent(list: seq<Node>, parent: Node)
    requires forall k :: 0 <= k < |list| ==> IsParentOf(parent, list[k])
    ensures Grounded(list, [parent])
  {
    assert [parent][0] == parent;
  }

  lemma StripsNameParent(parent: Node)
    requires parent.id.Some? && LinkedBelow(parent.id, parent.section, parent.items)
    ensures Grounded(Strips(parent.items), [Strip(parent)])
    ensures forall i :: 0 <= i < |parent.items| ==>
      && Strips(parent.items)[i] == Strip(parent.items[i])
      && parent.items[i].id.Some? && LinkedBelow(parent.items[i].id, parent.items[i].section, parent.items[i].items)
  {
    AllNameParent(Strips(parent.items), Strip(parent));
  }

  lemma {:induction false} FlatItemsGrounded(parent: Node)
    requires parent.id.Some? && LinkedBelow(parent.id, parent.section, parent.items)
    ensures Grounded(FlatItems(parent.items), [Strip(parent)])
    decreases parent.items, 0, 1
  {
    hide Deeper, Grounded, LinkedBelow, Strips;
    var items := parent.items;
    StripsNameParent(parent);
    DeeperGrounded(parent, |items|);
    ParentsInFront(Strips(items), Deeper(items, |items|), [Strip(parent)]);
  }

  lemma {:induction false} DeeperGrounded(parent: Node, m: nat)
    requires parent.id.Some? && LinkedBelow(parent.id, parent.section, parent.items) && m <= |parent.items|
    ensures Grounded(Deeper(parent.items, m), Strips(parent.items))
    decreases parent.items, 0, 0, m
  {
    hide FlatItems, Grounded, LinkedBelow, Strips;
    var items := parent.items;
    if m == 0 {
      NoneGrounded(Strips(items));
    } else {
      StripsNameParent(parent);
      StripsLength(items);
      DeeperGrounded(parent, m - 1);
      FlatItemsGrounded(items[m - 1]);
      GroundedMore(FlatItems(items[m - 1].items), Strip(items[m - 1]), Strips(items), m - 1);
      GroundedJoin(Deeper(items, m - 1), FlatItems(items[m - 1].items), Strips(items));
    }
  }

  lemma NoneGrounded(parents: seq<Node>)
    ensures Grounded([], parents)
  {
  }

  lemma StripsLength(items: seq<Node>)
    ensures |Strips(items)| == |items|
  {
  }

  lemma {:induction false} FlatRootsGrounded(forest: seq<Node>, m: nat)
    requires Linked(forest) && m <= |forest|
    ensures RootsOrParents(FlatRoots(forest, m))
    decreases m
  {
    if m > 0 {
      var root := forest[m - 1];
      var before, below := FlatRoots(forest, m - 1), FlatItems(root.items);
      FlatItemsGrounded(root);
      FlatRootsGrounded(forest, m - 1);
      hide FlatItems, LinkedBelow;
      TreeAfter(before, Strip(root), below);
    }
  }

  /** Every item that has a parent has it before itself. */
  ghost predicate RootsOrParents(list: seq<Node>) {
    forall k :: 0 <= k < |list| && list[k].parent.Some? ==> ParentBefore(list, k)
  }

  lemma ParentStaysBefore(a: seq<Node>, b: seq<Node>, i: nat)
    requires i < |a| && ParentBefore(a, i)
    ensures ParentBefore(a + b, i)
  {
    hide IsParentOf;
    var j :| 0 <= j < i && IsParentOf(a[j], a[i]);
    assert IsParentOf((a + b)[j], (a + b)[i]);
  }

  lemma ParentMovesAlong(a: seq<Node>, b: seq<Node>, i: nat)
    requires i < |b| && ParentBefore(b, i)
    ensures ParentBefore(a + b, |a| + i)
  {
    hide IsParentOf;
    var j :| 0 <= j < i && IsParentOf(b[j], b[i]);
    assert IsParentOf((a + b)[|a| + j], (a + b)[|a| + i]);
  }

  lemma GroundedAt(below: seq<Node>, root: Node, i: nat)
    requires i < |below| && Grounded(below, [root])
    ensures ParentBefore(below, i) || IsParentOf(root, below[i])
  {
    hide IsParentOf;
  }

  lemma RootIsBefore(before: seq<Node>, root: Node, below: seq<Node>, i: nat)
    requires i < |below| && Grounded(below, [root])
    ensures ParentBefore(before + [root] + below, |before| + 1 + i)
  {
    hide IsParentOf, Grounded;
    GroundedAt(below, root, i);
    if ParentBefore(below, i) {
      ParentMovesAlong(before + [root], below, i);
    } else {
      var list := before + [root] + below;
      assert list[|before|] == root && list[|before| + 1 + i] == below[i];
    }
  }

  lemma TreeAfter(before: seq<Node>, root: Node, below: seq<Node>)
    requires RootsOrParents(before) && root.parent.None? && Grounded(below, [root])
    ensures RootsOrParents(before + [root] + below)
  {
    hide ParentBefore, Grounded;
    var list := before + [root] + below;
    forall k | 0 <= k < |list| && list[k].parent.Some?
      ensures ParentBefore(list, k)
    {
      if k < |before| {
        ParentStaysBefore(before, [root] + below, k);
        ConcatIsAssociative(before, [root], below);
      } else {
        RootIsBefore(before, root, below, k - |before| - 1);
      }
    }
  }

  /** Full flattening lists every item's parent, and so all its ancestors, before the item. */
  lemma FlattenListsAncestorsFirst(forest: seq<Node>)
    requires Linked(forest)
    ensures RootsOrParents(Flatten(forest, 1, Same()))
  {
    FlattenIsFlat(forest, |forest|);
    assert forest[..|forest|] == forest;
    hide Flatten, FlatRoots;
    FlatRootsGrounded(forest, |forest|);
  }
}
