/** Which items of a compacted menu tree are still there, item by item, and when no container is. */
module CompactedContainers {

  import opened Common
  import opened Navigation
  import opened CompactNavigation

  /** The item is one of these, or somewhere below one of them. */
  ghost predicate Below(items: seq<Node>, c: Node)
    decreases items
  {
    exists i :: 0 <= i < |items| && (items[i] == c || Below(items[i].items, c))
  }

  /** An item with this id is in the list. */
  ghost predicate Listed(list: seq<Node>, id: Option<Id>) {
    exists t :: 0 <= t < |list| && list[t].id == id
  }

  // ---------------------------------------------------------------- where an item is after lifting

  /** A position in the block of item r is a position in what lies deeper. */
  lemma {:induction false} BlockPlace(items: seq<Node>, m: nat, r: nat, j: nat) returns (i: nat)
    requires r < m <= |items| && j < |Block(items, r)|
    ensures |DeeperTags(items, m)| == |DeeperFlags(items, m)| && i < |DeeperTags(items, m)|
    ensures |Block(items, r)| == |FlagsOf(items[r].items)|
    ensures DeeperTags(items, m)[i] == Block(items, r)[j] && DeeperFlags(items, m)[i] == FlagsOf(items[r].items)[j]
    decreases m
  {
    hide TagsOf, FlagsOf;
    DeeperLengths(items, m);
    DeeperLengths(items, m - 1);
    TagLengths(items[r].id, items[r].items);
    if r == m - 1 {
      i := |DeeperTags(items, m - 1)| + j;
    } else {
      i := BlockPlace(items, m - 1, r, j);
    }
  }

  /** An item of a tree has a place in the lifted tree, with its id and its survival. */
  lemma {:induction false} PlaceOf(mark: Option<Id>, items: seq<Node>, c: Node) returns (y: nat)
    requires Below(items, c)
    ensures |TagsOf(mark, items)| == |FlagsOf(items)| && y < |FlagsOf(items)|
    ensures TagsOf(mark, items)[y].id == c.id && FlagsOf(items)[y] == Survives(c)
    decreases items
  {
    hide Survives, DeeperTags, DeeperFlags;
    TagLengths(mark, items);
    DeeperLengths(items, |items|);
    var i :| 0 <= i < |items| && (items[i] == c || Below(items[i].items, c));
    if items[i] == c {
      y := i;
    } else {
      var j := PlaceOf(items[i].id, items[i].items, c);
      var d := BlockPlace(items, |items|, i, j);
      y := |items| + d;
    }
  }

  lemma {:induction false} SurvivorIsListed(list: seq<Node>, flags: seq<bool>, k: nat, x: nat)
    requires |flags| == |list| && k <= x < |list| && flags[x]
    ensures Listed(Survivors(list, flags, k), list[x].id)
    decreases |list| - k
  {
    hide Survivors;
    SurvivorsStep(list, flags, k);
    var rest := Survivors(list, flags, k + 1);
    if x == k {
      assert Survivors(list, flags, k)[0] == Unmark(list[x]);
    } else {
      SurvivorIsListed(list, flags, k + 1, x);
      var t :| 0 <= t < |rest| && rest[t].id == list[x].id;
      assert Survivors(list, flags, k)[if flags[k] then t + 1 else t] == rest[t];
    }
  }

  lemma {:induction false} ListedIsSurvivor(list: seq<Node>, flags: seq<bool>, k: nat, t: nat) returns (x: nat)
    requires |flags| == |list| && k <= |list| && t < |Survivors(list, flags, k)|
    ensures k <= x < |list| && flags[x] && Survivors(list, flags, k)[t].id == list[x].id
    decreases |list| - k
  {
    if flags[k] && t == 0 {
      x := k;
    } else {
      x := ListedIsSurvivor(list, flags, k + 1, if flags[k] then t - 1 else t);
    }
  }

  // ---------------------------------------------------------------- what is still there

  /** An item below a first-level item is still there after compacting if and only if none of its
      own children survives, whatever the height. */
  lemma ListedExactlyWhenSurviving(join: LinkJoin, root: Node, c: Node)
    requires Plain(root.items) && DistinctIds(TagsOf(None, root.items)) && Below(root.items, c)
    ensures Listed(CompactRoot(join, root).items, c.id) <==> Survives(c)
  {
    var list, flags, tags := LiftedTree(join, root), FlagsOf(root.items), TagsOf(None, root.items);
    CompactKeepsSurvivors(join, root);
    LiftedTreeTags(join, root);
    var y := PlaceOf(None, root.items, c);
    hide CompactRoot, LiftedTree, FlagsOf, TagsOf, Survives, Survivors, Plain, Below;
    if flags[y] {
      SurvivorIsListed(list, flags, 0, y);
    }
    var out := Survivors(list, flags, 0);
    if Listed(out, c.id) {
      var t :| 0 <= t < |out| && out[t].id == c.id;
      var x := ListedIsSurvivor(list, flags, 0, t);
      assert tags[x].id == tags[y].id;
      assert x == y;
    }
  }

  /** One level more than three and a container can stay: the only grandchild here is a container
      itself, so nothing takes its parent out. */
  lemma ContainerStays(join: LinkJoin, root: Node, container: Node, inner: Node, leaf: Node)
    requires root.items == [container] && container.items == [inner] && inner.items == [leaf] && leaf.items == []
    requires Plain(root.items) && DistinctIds(TagsOf(None, root.items))
    ensures CompactRoot(join, root).items != [] && CompactRoot(join, root).items[0].id == container.id
    ensures !Listed(CompactRoot(join, root).items, inner.id)
  {
    var list, flags := LiftedTree(join, root), FlagsOf(root.items);
    CompactKeepsSurvivors(join, root);
    LiftedTreeTags(join, root);
    SurvivorsStep(list, flags, 0);
    assert inner.items[0] == leaf && container.items[0] == inner && root.items[0] == container;
    assert Survives(leaf) && !Survives(inner) && Survives(container);
    assert Below(container.items, inner) && Below(root.items, inner);
    ListedExactlyWhenSurviving(join, root, inner);
    assert flags[0] == Survives(container) && TagsOf(None, root.items)[0].id == container.id;
  }

  // ---------------------------------------------------------------- when no container is left

  ghost predicate HasLeafChild(c: Node) {
    exists i :: 0 <= i < |c.items| && c.items[i].items == []
  }

  /** Whatever has items below it is gone. */
  ghost predicate NoContainerListed(items: seq<Node>, list: seq<Node>) {
    forall c :: Below(items, c) && c.items != [] ==> !Listed(list, c.id)
  }

  ghost predicate EveryContainerHasLeafChild(items: seq<Node>) {
    forall c :: Below(items, c) && c.items != [] ==> HasLeafChild(c)
  }

  lemma {:induction false} ChildIsBelow(items: seq<Node>, c: Node, i: nat)
    requires Below(items, c) && i < |c.items|
    ensures Below(items, c.items[i])
    decreases items
  {
    var r :| 0 <= r < |items| && (items[r] == c || Below(items[r].items, c));
    if items[r] != c {
      ChildIsBelow(items[r].items, c, i);
    }
    assert Below(items[r].items, c.items[i]);
  }

  /** Compacting leaves no container if and only if every container below the first-level item has a
      leaf among its children. */
  lemma NoContainerStaysExactlyWhen(join: LinkJoin, root: Node)
    requires Plain(root.items) && DistinctIds(TagsOf(None, root.items))
    ensures NoContainerListed(root.items, CompactRoot(join, root).items) <==> EveryContainerHasLeafChild(root.items)
  {
    hide CompactRoot, Below, TagsOf, DistinctIds, Plain, Listed;
    var out := CompactRoot(join, root).items;
    if EveryContainerHasLeafChild(root.items) {
      forall c | Below(root.items, c) && c.items != []
        ensures !Listed(out, c.id)
      {
        ListedExactlyWhenSurviving(join, root, c);
        var i :| 0 <= i < |c.items| && c.items[i].items == [];
        assert Survives(c.items[i]);
      }
    }
    if NoContainerListed(root.items, out) {
      forall c | Below(root.items, c) && c.items != []
        ensures HasLeafChild(c)
      {
        ListedExactlyWhenSurviving(join, root, c);
        var i :| 0 <= i < |c.items| && Survives(c.items[i]);
        ChildIsBelow(root.items, c, i);
        ListedExactlyWhenSurviving(join, root, c.items[i]);
      }
    }
  }
}
