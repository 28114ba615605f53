/** The navigation trees of blocklet/meta: flattening to a depth, and nesting a flat list back. */
module Navigation {

  import opened Common

  datatype Id = Id(text: string)

  datatype Section = Section(names: seq<string>)

  datatype Link = Link(text: string)

  datatype Role = Role(text: string)

  /** A menu item. Absent and empty values are both None; `mark` is the temporary `_parent`. */
  datatype Node = Node(
    id: Option<Id>,
    parent: Option<Id>,
    section: Option<Section>,
    mark: Option<Id>,
    component: string,
    link: Option<Link>,
    visible: Option<bool>,
    role: Option<Role>,
    items: seq<Node>)

  /** The item on its own. */
  function Strip(node: Node): Node {
    node.(items := [])
  }

  // ---------------------------------------------------------------- flattening

  /** What the caller does to an item that moves next to its parent, or to a flattened root. */
  type Transform = (Node, Option<Node>) -> Node

  /** The identity, which is the default. */
  function Same(): Transform {
    (item: Node, parent: Option<Node>) => item
  }

  /** The item once everything below it has been walked. */
  function Walked(node: Node, level: nat, depth: int, transform: Transform): Node
    decreases node, 1
  {
    node.(items := WalkedItems(node.items, level + 1, depth, transform))
  }

  /** A list of siblings once walked: the siblings themselves, then what was lifted out of them. */
  function WalkedItems(items: seq<Node>, level: nat, depth: int, transform: Transform): seq<Node>
    decreases items, 0, 1
  {
    Kept(items, level, depth, transform) + Lifted(items, level, depth, transform)
  }

  function Kept(items: seq<Node>, level: nat, depth: int, transform: Transform): seq<Node>
    decreases items, 0, 0
  {
    if items == [] then []
    else
      var walked := Walked(items[0], level, depth, transform);
      [if level >= depth then Strip(walked) else walked] + Kept(items[1..], level, depth, transform)
  }

  function Lifted(items: seq<Node>, level: nat, depth: int, transform: Transform): seq<Node>
    decreases items, 0, 0
  {
    if items == [] then []
    else LiftedFrom(Walked(items[0], level, depth, transform), level, depth, transform)
         + Lifted(items[1..], level, depth, transform)
  }

  function LiftedFrom(walked: Node, level: nat, depth: int, transform: Transform): seq<Node> {
    if level >= depth then TransformAll(walked.items, Some(Strip(walked)), transform) else []
  }

  function TransformAll(items: seq<Node>, parent: Option<Node>, transform: Transform): seq<Node> {
    seq(|items|, i requires 0 <= i < |items| => transform(items[i], parent))
  }

  function FlattenRoot(root: Node, depth: int, transform: Transform): seq<Node> {
    var walked := Walked(root, 1, depth, transform);
    if 1 >= depth
    then [transform(Strip(walked), None)] + TransformAll(walked.items, Some(Strip(walked)), transform)
    else [walked]
  }

  function Flatten(list: seq<Node>, depth: int, transform: Transform): seq<Node> {
    FlatMap((root: Node) => FlattenRoot(root, depth, transform), list)
  }

  // ---------------------------------------------------------------- the code that flattens

  /** Walks the children of one item. The array grows at its end while it is walked; the walk
      stops at its original length. */
  method WalkItems(original: seq<Node>, level: nat, depth: int, transform: Transform) returns (items: seq<Node>)
    ensures items == WalkedItems(original, level, depth, transform)
    decreases original
  {
    items := original;
    var n := |items|;
    assert Kept([], level, depth, transform) + original[0..] + Lifted([], level, depth, transform) == original;
    assert original[..0] == [];
    for i := 0 to n
      invariant items == Kept(original[..i], level, depth, transform) + original[i..]
                         + Lifted(original[..i], level, depth, transform)
      invariant |Kept(original[..i], level, depth, transform)| == i
    {
      WalkStep(original, level, depth, transform, i);
      var item := items[i];
      assert item == original[i];
      var below := WalkItems(item.items, level + 1, depth, transform);
      item := item.(items := below);
      assert item == Walked(original[i], level, depth, transform);
      if level >= depth && |item.items| > 0 {
        var children := item.items;
        item := item.(items := []);
        items := items[i := item] + TransformAll(children, Some(item), transform);
      } else {
        items := items[i := item];
      }
    }
    assert original[..n] == original && original[n..] == [];
  }

  lemma {:induction false} KeptSnoc(items: seq<Node>, last: Node, level: nat, depth: int, transform: Transform)
    ensures var walked := Walked(last, level, depth, transform);
            Kept(items + [last], level, depth, transform)
            == Kept(items, level, depth, transform) + [if level >= depth then Strip(walked) else walked]
  {
    hide Walked;
    if items == [] {
      assert [] + [last] == [last] && [last][1..] == [];
    } else {
      KeptSnoc(items[1..], last, level, depth, transform);
      assert (items + [last])[1..] == items[1..] + [last];
    }
  }

  lemma {:induction false} LiftedSnoc(items: seq<Node>, last: Node, level: nat, depth: int, transform: Transform)
    ensures Lifted(items + [last], level, depth, transform)
            == Lifted(items, level, depth, transform)
               + LiftedFrom(Walked(last, level, depth, transform), level, depth, transform)
  {
    hide Walked, LiftedFrom;
    if items == [] {
      assert [] + [last] == [last] && [last][1..] == [];
    } else {
      LiftedSnoc(items[1..], last, level, depth, transform);
      assert (items + [last])[1..] == items[1..] + [last];
    }
  }

  /** One turn of the walk: item i stays, and what it lifts goes to the end. */
  lemma WalkStep(original: seq<Node>, level: nat, depth: int, transform: Transform, i: nat)
    requires i < |original| && |Kept(original[..i], level, depth, transform)| == i
    ensures var walked := Walked(original[i], level, depth, transform);
            var before := Kept(original[..i], level, depth, transform) + original[i..]
                          + Lifted(original[..i], level, depth, transform);
            && i < |before| && before[i] == original[i]
            && before[i := if level >= depth then Strip(walked) else walked]
               + LiftedFrom(walked, level, depth, transform)
               == Kept(original[..i + 1], level, depth, transform) + original[i + 1..]
                  + Lifted(original[..i + 1], level, depth, transform)
            && |Kept(original[..i + 1], level, depth, transform)| == i + 1
  {
    assert original[..i + 1] == original[..i] + [original[i]];
    KeptSnoc(original[..i], original[i], level, depth, transform);
    LiftedSnoc(original[..i], original[i], level, depth, transform);
    var walked := Walked(original[i], level, depth, transform);
    SpliceMiddle(Kept(original[..i], level, depth, transform), original[i..],
                 Lifted(original[..i], level, depth, transform),
                 if level >= depth then Strip(walked) else walked, LiftedFrom(walked, level, depth, transform));
    assert original[i..][1..] == original[i + 1..];
  }

  lemma SpliceMiddle<T>(a: seq<T>, b: seq<T>, c: seq<T>, x: T, tail: seq<T>)
    requires b != []
    ensures (a + b + c)[|a| := x] + tail == (a + [x]) + b[1..] + (c + tail)
  {
  }

  method FlattenNavigation(list: seq<Node>, depth: int, transform: Transform) returns (finalList: seq<Node>)
    ensures finalList == Flatten(list, depth, transform)
  {
    ghost var f := (root: Node) => FlattenRoot(root, depth, transform);
    finalList := [];
    for i := 0 to |list|
      invariant finalList == FlatMap(f, list[..i])
    {
      var pushed := FlattenItem(list[i], depth, transform);
      FlatMapSnoc(f, list[..i], list[i]);
      assert list[..i + 1] == list[..i] + [list[i]];
      finalList := finalList + pushed;
    }
    assert list[..|list|] == list;
  }

  /** The walk of one top-level item: what it adds to the final list. */
  method FlattenItem(root: Node, depth: int, transform: Transform) returns (pushed: seq<Node>)
    ensures pushed == FlattenRoot(root, depth, transform)
  {
    var item := root;
    var below := WalkItems(item.items, 2, depth, transform);
    item := item.(items := below);
    pushed := [item];
    if 1 >= depth {
      var items := item.items;
      item := item.(items := []);
      pushed := [transform(item, None)];
      if |items| > 0 {
        pushed := pushed + TransformAll(items, Some(item), transform);
      }
    }
  }

  // ---------------------------------------------------------------- what flattening keeps

  /** All items of a forest, at any depth, each on its own. */
  ghost function Labels(items: seq<Node>): multiset<Node> {
    if items == [] then multiset{}
    else multiset{Strip(items[0])} + Labels(items[0].items) + Labels(items[1..])
  }

  function Height(items: seq<Node>): nat {
    if items == [] then 0
    else if 1 + Height(items[0].items) > Height(items[1..]) then 1 + Height(items[0].items)
    else Height(items[1..])
  }

  lemma {:induction false} LabelsConcat(a: seq<Node>, b: seq<Node>)
    ensures Labels(a + b) == Labels(a) + Labels(b)
  {
    if a == [] {
      assert a + b == b;
    } else {
      LabelsConcat(a[1..], b);
      HeadTail(a, b);
      LabelsOfOne(a[0], a[1..]);
      LabelsOfOne(a[0], a[1..] + b);
    }
  }

  lemma {:induction false} HeightConcat(a: seq<Node>, b: seq<Node>)
    ensures Height(a + b) == if Height(a) > Height(b) then Height(a) else Height(b)
  {
    if a == [] {
      assert a + b == b;
    } else {
      HeightConcat(a[1..], b);
      assert (a + b)[1..] == a[1..] + b;
    }
  }

  lemma SameAll(items: seq<Node>, parent: Option<Node>)
    ensures TransformAll(items, parent, Same()) == items
  {
  }

  lemma {:induction false} WalkKeepsLabels(items: seq<Node>, level: nat, depth: int)
    ensures Labels(Kept(items, level, depth, Same())) + Labels(Lifted(items, level, depth, Same())) == Labels(items)
  {
    if items != [] {
      var node := items[0];
      var below := WalkedItems(node.items, level + 1, depth, Same());
      WalkKeepsLabels(node.items, level + 1, depth);
      LabelsConcat(Kept(node.items, level + 1, depth, Same()), Lifted(node.items, level + 1, depth, Same()));
      assert Labels(below) == Labels(node.items);
      WalkKeepsLabels(items[1..], level, depth);
      var walked := Walked(node, level, depth, Same());
      SameAll(walked.items, Some(Strip(walked)));
      var lifted := LiftedFrom(walked, level, depth, Same());
      LabelsConcat(lifted, Lifted(items[1..], level, depth, Same()));
      var kept := if level >= depth then Strip(walked) else walked;
      LabelsOfOne(kept, Kept(items[1..], level, depth, Same()));
    }
  }

  lemma LabelsOfOne(node: Node, rest: seq<Node>)
    ensures Labels([node] + rest) == multiset{Strip(node)} + Labels(node.items) + Labels(rest)
  {
    assert ([node] + rest)[1..] == rest;
  }

  lemma RootKeepsLabels(root: Node, depth: int)
    ensures Labels(FlattenRoot(root, depth, Same())) == multiset{Strip(root)} + Labels(root.items)
  {
    WalkKeepsLabels(root.items, 2, depth);
    LabelsConcat(Kept(root.items, 2, depth, Same()), Lifted(root.items, 2, depth, Same()));
    var walked := Walked(root, 1, depth, Same());
    assert walked.items == WalkedItems(root.items, 2, depth, Same());
    assert Labels(walked.items) == Labels(root.items);
    SameAll(walked.items, Some(Strip(walked)));
    LabelsOfOne(Strip(walked), walked.items);
    LabelsOfOne(walked, []);
    assert [walked] + [] == [walked];
  }

  /** Flattening to any depth keeps every item exactly once. */
  lemma {:induction false} FlattenKeepsItems(list: seq<Node>, depth: int)
    ensures Labels(Flatten(list, depth, Same())) == Labels(list)
  {
    if list != [] {
      FlattenKeepsItems(list[1..], depth);
      RootKeepsLabels(list[0], depth);
      LabelsConcat(FlattenRoot(list[0], depth, Same()), Flatten(list[1..], depth, Same()));
    }
  }

  /** The room a walk at some level may use. */
  function Room(level: nat, depth: int): nat {
    if depth <= level then 1 else depth - level + 1
  }

  lemma {:induction false} WalkIsBounded(items: seq<Node>, level: nat, depth: int)
    ensures Height(Kept(items, level, depth, Same())) <= Room(level, depth)
    ensures Height(Lifted(items, level, depth, Same())) <= 1
  {
    if items != [] {
      var node := items[0];
      WalkIsBounded(node.items, level + 1, depth);
      HeightConcat(Kept(node.items, level + 1, depth, Same()), Lifted(node.items, level + 1, depth, Same()));
      WalkIsBounded(items[1..], level, depth);
      var walked := Walked(node, level, depth, Same());
      assert walked.items == WalkedItems(node.items, level + 1, depth, Same());
      assert Height(walked.items) <= Room(level + 1, depth);
      SameAll(walked.items, Some(Strip(walked)));
      assert Height(LiftedFrom(walked, level, depth, Same())) <= 1;
      HeightConcat(LiftedFrom(walked, level, depth, Same()), Lifted(items[1..], level, depth, Same()));
      var kept := if level >= depth then Strip(walked) else walked;
      HeightOfOne(kept, Kept(items[1..], level, depth, Same()));
    }
  }

  lemma HeightOfOne(node: Node, rest: seq<Node>)
    ensures Height([node] + rest)
            == if 1 + Height(node.items) > Height(rest) then 1 + Height(node.items) else Height(rest)
  {
    assert ([node] + rest)[1..] == rest;
  }

  /** A forest flattened to a depth is no higher than that depth. */
  lemma {:induction false} FlattenIsBounded(list: seq<Node>, depth: int)
    ensures Height(Flatten(list, depth, Same())) <= if depth < 1 then 1 else depth
  {
    if list != [] {
      var root := list[0];
      FlattenIsBounded(list[1..], depth);
      WalkIsBounded(root.items, 2, depth);
      HeightConcat(Kept(root.items, 2, depth, Same()), Lifted(root.items, 2, depth, Same()));
      var walked := Walked(root, 1, depth, Same());
      assert walked.items == WalkedItems(root.items, 2, depth, Same());
      assert Height(walked.items) <= Room(2, depth);
      SameAll(walked.items, Some(Strip(walked)));
      HeightOfOne(Strip(walked), walked.items);
      HeightOfOne(walked, []);
      HeightConcat(FlattenRoot(root, depth, Same()), Flatten(list[1..], depth, Same()));
      assert [walked] + [] == [walked];
    }
  }

  lemma {:induction false} WalkLeavesShallow(items: seq<Node>, level: nat, depth: int)
    requires Height(items) + level <= depth + 1
    ensures Kept(items, level, depth, Same()) == items
    ensures Lifted(items, level, depth, Same()) == []
  {
    if items != [] {
      WalkLeavesShallow(items[0].items, level + 1, depth);
      WalkLeavesShallow(items[1..], level, depth);
      assert items == [items[0]] + items[1..];
      assert Walked(items[0], level, depth, Same()) == items[0];
    }
  }

  /** A forest that is no higher than the depth is left as it is. */
  lemma {:induction false} FlattenLeavesShallow(list: seq<Node>, depth: int)
    requires Height(list) <= depth
    ensures Flatten(list, depth, Same()) == list
  {
    if list != [] {
      RootStaysShallow(list[0], depth);
      FlattenLeavesShallow(list[1..], depth);
      HeadTail(list, []);
    }
  }

  lemma RootStaysShallow(root: Node, depth: int)
    requires 1 + Height(root.items) <= depth
    ensures FlattenRoot(root, depth, Same()) == [root]
  {
    WalkLeavesShallow(root.items, 2, depth);
    assert WalkedItems(root.items, 2, depth, Same()) == root.items + [];
    assert Walked(root, 1, depth, Same()) == root;
    assert TransformAll([], Some(Strip(root)), Same()) == [];
  }

  // ---------------------------------------------------------------- nesting

  /** The item names i as its parent, and they are not in different sections. */
  ghost predicate NamesParent(item: Node, i: Node) {
    item.parent.Some? && item.parent == i.id && (item.section.None? || i.section.None? || item.section == i.section)
  }

  /** Whether `i` can be the parent of `item`: sections count only when both have one. */
  predicate Matches(item: Node, i: Node): (matches: bool)
    ensures matches <==> NamesParent(item, i)
  {
    && i.id.Some? && i.id == item.parent
    && (item.section.Some? && i.section.Some? ==> i.section == item.section)
  }

  /** The position `find` stops at; the length when nothing matches. */
  function FindParent(list: seq<Node>, item: Node): (j: nat)
    ensures j <= |list|
    ensures j < |list| ==> Matches(item, list[j])
    ensures forall k :: 0 <= k < j ==> !Matches(item, list[k])
  {
    if list == [] || Matches(item, list[0]) then 0 else 1 + FindParent(list[1..], item)
  }

  /** Moves the item at k into its parent, if it has one, and out of the list. */
  function NestStep(list: seq<Node>, k: nat): seq<Node>
    requires k < |list|
  {
    var item := list[k];
    if item.parent.None? then list
    else
      var j := FindParent(list, item);
      var attached := if j < |list| then list[j := list[j].(items := [item] + list[j].items)] else list;
      attached[..k] + attached[k + 1..]
  }

  /** The steps at k - 1, ..., 0. */
  function NestFrom(list: seq<Node>, k: nat): seq<Node>
    requires k <= |list|
    decreases k
  {
    if k == 0 then list else NestFrom(NestStep(list, k - 1), k - 1)
  }

  function Nest(list: seq<Node>): seq<Node> {
    NestFrom(list, |list|)
  }

  /** The code walks the list from its end while it takes items out of it. */
  method NestNavigationList(list: seq<Node>) returns (cloneList: seq<Node>)
    ensures cloneList == Nest(list)
  {
    cloneList := list;
    var index := |list|;
    while index > 0
      invariant 0 <= index <= |cloneList|
      invariant NestFrom(cloneList, index) == Nest(list)
    {
      hide Nest, NestFrom;
      ghost var before := cloneList;
      index := index - 1;
      NestOnce(before, index, NestStep(before, index));
      var item := cloneList[index];
      if item.parent.Some? {
        var j := FindParent(cloneList, item);
        if j < |cloneList| {
          cloneList := cloneList[j := cloneList[j].(items := [item] + cloneList[j].items)];
        }
        cloneList := cloneList[..index] + cloneList[index + 1..];
      }
    }
  }

  // ---------------------------------------------------------------- nesting undoes flattening

  /** Two items a parent lookup could confuse. */
  ghost predicate SameKey(a: Node, b: Node) {
    && a.id == b.id
    && (a.section.None? || b.section.None? || a.section == b.section)
  }

  ghost predicate UniqueKeys(list: seq<Node>) {
    forall i, j :: 0 <= i < j < |list| ==> !SameKey(list[i], list[j])
  }

  /** Every item names the item above it as its parent and shares its section. */
  ghost predicate LinkedBelow(parent: Option<Id>, section: Option<Section>, items: seq<Node>)
    decreases items
  {
    forall i :: 0 <= i < |items| ==>
      && items[i].parent == parent && items[i].section == section && items[i].id.Some?
      && LinkedBelow(items[i].id, section, items[i].items)
  }

  ghost predicate Linked(forest: seq<Node>) {
    forall i :: 0 <= i < |forest| ==>
      && forest[i].parent.None? && forest[i].id.Some?
      && LinkedBelow(forest[i].id, forest[i].section, forest[i].items)
  }

  /** The fully flat list below an item. */
  ghost function FlatItems(items: seq<Node>): seq<Node>
    decreases items, 0, 1
  {
    Strips(items) + Deeper(items, |items|)
  }

  ghost function Strips(items: seq<Node>): seq<Node> {
    seq(|items|, i requires 0 <= i < |items| => Strip(items[i]))
  }

  /** What the first m items have below them, item by item. */
  ghost function Deeper(items: seq<Node>, m: nat): seq<Node>
    requires m <= |items|
    decreases items, 0, 0, m
  {
    if m == 0 then [] else Deeper(items, m - 1) + FlatItems(items[m - 1].items)
  }

  lemma {:induction false} WalkIsFlat(items: seq<Node>, level: nat, depth: int, m: nat)
    requires depth <= level && m <= |items|
    ensures Kept(items[..m], level, depth, Same()) == Strips(items[..m])
    ensures Lifted(items[..m], level, depth, Same()) == Deeper(items, m)
    decreases items, m
  {
    if m > 0 {
      WalkIsFlat(items, level, depth, m - 1);
      var last := items[m - 1];
      assert items[..m] == items[..m - 1] + [last];
      KeptSnoc(items[..m - 1], last, level, depth, Same());
      LiftedSnoc(items[..m - 1], last, level, depth, Same());
      WalkIsFlat(last.items, level + 1, depth, |last.items|);
      assert last.items[..|last.items|] == last.items;
      var walked := Walked(last, level, depth, Same());
      assert walked.items == FlatItems(last.items);
      SameAll(walked.items, Some(Strip(walked)));
      assert Strip(walked) == Strip(last);
    }
  }

  /** The fully flat list of the first m trees of a forest. */
  ghost function FlatRoots(forest: seq<Node>, m: nat): seq<Node>
    requires m <= |forest|
  {
    if m == 0 then [] else FlatRoots(forest, m - 1) + [Strip(forest[m - 1])] + FlatItems(forest[m - 1].items)
  }

  lemma RootIsFlat(root: Node)
    ensures FlattenRoot(root, 1, Same()) == [Strip(root)] + FlatItems(root.items)
  {
    WalkIsFlat(root.items, 2, 1, |root.items|);
    assert root.items[..|root.items|] == root.items;
    var walked := Walked(root, 1, 1, Same());
    assert walked.items == WalkedItems(root.items, 2, 1, Same());
    SameAll(walked.items, Some(Strip(walked)));
  }

  lemma {:induction false} FlattenIsFlat(forest: seq<Node>, m: nat)
    requires m <= |forest|
    ensures Flatten(forest[..m], 1, Same()) == FlatRoots(forest, m)
  {
    if m > 0 {
      FlattenIsFlat(forest, m - 1);
      var root := forest[m - 1];
      assert forest[..m] == forest[..m - 1] + [root];
      FlatMapSnoc((node: Node) => FlattenRoot(node, 1, Same()), forest[..m - 1], root);
      RootIsFlat(root);
    }
  }

  ghost predicate SameKeys(a: seq<Node>, b: seq<Node>) {
    && |a| <= |b|
    && forall i :: 0 <= i < |a| ==> a[i].id == b[i].id && a[i].section == b[i].section
  }

  lemma KeysInherited(a: seq<Node>, b: seq<Node>)
    requires SameKeys(a, b) && UniqueKeys(b)
    ensures UniqueKeys(a)
  {
    forall i, j | 0 <= i < j < |a|
      ensures !SameKey(a[i], a[j])
    {
      assert !SameKey(b[i], b[j]);
    }
  }

  lemma {:induction false} FindParentIs(list: seq<Node>, item: Node, j: nat)
    requires j < |list| && Matches(item, list[j])
    requires forall k :: 0 <= k < j ==> !Matches(item, list[k])
    ensures FindParent(list, item) == j
  {
  }

  lemma FindsItsParent(list: seq<Node>, item: Node, j: nat, n: nat)
    requires j < n <= |list| && UniqueKeys(list[..n])
    requires item.parent == list[j].id && list[j].id.Some? && item.section == list[j].section
    ensures FindParent(list, item) == j
  {
    forall k | 0 <= k < j
      ensures !Matches(item, list[k])
    {
      assert !SameKey(list[..n][k], list[..n][j]);
    }
    FindParentIs(list, item, j);
  }

  /** Siblings at the end of the unprocessed part move into their parent, the last one first. */
  lemma {:induction false} SiblingsAttach(before: seq<Node>, j: nat, items: seq<Node>, m: nat, after: seq<Node>)
    requires j < |before| && m <= |items| && UniqueKeys(before) && before[j].id.Some?
    requires forall i :: 0 <= i < m ==> items[i].parent == before[j].id && items[i].section == before[j].section
    ensures NestFrom(before + items[..m] + after, |before| + m)
            == NestFrom(WithItems(before, j, items[..m]) + after, |before|)
    decreases m
  {
    hide NestFrom, NestStep, FindParent, Matches;
    if m == 0 {
      assert items[..0] == [] && before + [] + after == before + after;
      WithNoItems(before, j);
    } else {
      var item := items[m - 1];
      var list := before + items[..m] + after;
      assert list[|before| + m - 1] == item && list[..|before|] == before;
      FindsItsParent(list, item, j, |before|);
      AttachOne(before, j, items, m, after);
      var grown := WithItems(before, j, [item]);
      assert SameKeys(grown, before);
      KeysInherited(grown, before);
      NestOnce(list, |before| + m - 1, grown + items[..m - 1] + after);
      SiblingsAttach(grown, j, items, m - 1, after);
      WithMoreItems(before, j, items, m);
    }
  }

  lemma NestNone(list: seq<Node>)
    ensures NestFrom(list, 0) == list
  {
  }

  lemma NestOnce(list: seq<Node>, k: nat, next: seq<Node>)
    requires k < |list| && NestStep(list, k) == next
    ensures NestFrom(list, k + 1) == NestFrom(next, k)
  {
  }

  /** The list with more items in front of those of the item at j. */
  ghost function WithItems(list: seq<Node>, j: nat, items: seq<Node>): seq<Node>
    requires j < |list|
  {
    list[j := list[j].(items := items + list[j].items)]
  }

  lemma WithNoItems(list: seq<Node>, j: nat)
    requires j < |list|
    ensures WithItems(list, j, []) == list
  {
    assert [] + list[j].items == list[j].items;
  }

  lemma WithMoreItems(list: seq<Node>, j: nat, items: seq<Node>, m: nat)
    requires j < |list| && 0 < m <= |items|
    ensures WithItems(WithItems(list, j, [items[m - 1]]), j, items[..m - 1]) == WithItems(list, j, items[..m])
  {
    assert items[..m - 1] + ([items[m - 1]] + list[j].items) == items[..m] + list[j].items;
  }

  lemma AttachOne(before: seq<Node>, j: nat, items: seq<Node>, m: nat, after: seq<Node>)
    requires j < |before| && 0 < m <= |items|
    requires var list := before + items[..m] + after;
             items[m - 1].parent.Some? && FindParent(list, items[m - 1]) == j
    ensures NestStep(before + items[..m] + after, |before| + m - 1)
            == WithItems(before, j, [items[m - 1]]) + items[..m - 1] + after
  {
    hide FindParent;
    var k, item, grown := |before| + m - 1, items[m - 1], WithItems(before, j, [items[m - 1]]);
    var list := before + items[..m] + after;
    assert items[..m] == items[..m - 1] + [item];
    assert list == (before + items[..m - 1]) + [item] + after;
    assert list[k] == item && list[j] == before[j];
    var attached := WithItems(list, j, [item]);
    assert attached == (grown + items[..m - 1]) + [item] + after;
    assert attached[..k] == grown + items[..m - 1];
    assert attached[k + 1..] == after;
  }

  /** The list before a forest's first m trees are put back together. */
  ghost function Unattached(before: seq<Node>, items: seq<Node>, m: nat): seq<Node>
    requires m <= |items|
  {
    before + (Strips(items[..m]) + items[m..])
  }

  lemma UnattachedStep(before: seq<Node>, items: seq<Node>, m: nat, deeper: seq<Node>)
    requires 0 < m <= |items|
    ensures var left, j := Unattached(before, items, m) + deeper, |before| + m - 1;
            && j < |left| && left[j] == Strip(items[m - 1])
            && WithItems(left, j, items[m - 1].items) == Unattached(before, items, m - 1) + deeper
  {
    assert items[m - 1].items + [] == items[m - 1].items;
  }

  /** What lies below the first m siblings moves back into them. */
  lemma {:induction false} DeeperAttach(before: seq<Node>, section: Option<Section>, parent: Option<Id>,
                                        items: seq<Node>, m: nat, after: seq<Node>)
    requires m <= |items| && LinkedBelow(parent, section, items)
    requires UniqueKeys(Unattached(before, items, m) + Deeper(items, m))
    ensures NestFrom(Unattached(before, items, m) + Deeper(items, m) + after, |before| + |items| + |Deeper(items, m)|)
            == NestFrom(before + items + after, |before| + |items|)
    decreases items, m
  {
    hide NestFrom;
    if m == 0 {
      assert Unattached(before, items, 0) == before + items;
      assert before + items + [] == before + items;
    } else {
      var item, deeper := items[m - 1], Deeper(items, m - 1);
      var left, j := Unattached(before, items, m) + deeper, |before| + m - 1;
      UnattachedStep(before, items, m, deeper);
      assert Unattached(before, items, m) + Deeper(items, m) == left + FlatItems(item.items);
      assert |left| == |before| + |items| + |deeper|;
      assert |Deeper(items, m)| == |deeper| + |FlatItems(item.items)|;
      BlockAttaches(left, j, item.items, after);
      var restored := Unattached(before, items, m - 1) + deeper;
      assert NestFrom(Unattached(before, items, m) + Deeper(items, m) + after, |left| + |FlatItems(item.items)|)
             == NestFrom(restored + after, |left|);
      assert SameKeys(restored, left + FlatItems(item.items));
      KeysInherited(restored, left + FlatItems(item.items));
      DeeperAttach(before, section, parent, items, m - 1, after);
    }
  }

  /** A whole block of flattened descendants moves back under its item. */
  lemma {:induction false} BlockAttaches(before: seq<Node>, j: nat, items: seq<Node>, after: seq<Node>)
    requires j < |before| && before[j].id.Some?
    requires LinkedBelow(before[j].id, before[j].section, items)
    requires UniqueKeys(before + FlatItems(items))
    ensures NestFrom(before + FlatItems(items) + after, |before| + |FlatItems(items)|)
            == NestFrom(WithItems(before, j, items) + after, |before|)
    decreases items, |items| + 1
  {
    hide NestFrom;
    var n := |items|;
    assert items[..n] == items;
    assert Unattached(before, items, n) + Deeper(items, n) == before + FlatItems(items);
    DeeperAttach(before, before[j].section, before[j].id, items, n, after);
    assert SameKeys(before, before + FlatItems(items));
    KeysInherited(before, before + FlatItems(items));
    SiblingsAttach(before, j, items, n, after);
  }

  lemma RootStays(earlier: seq<Node>, forest: seq<Node>, m: nat)
    requires 0 < m <= |forest| && forest[m - 1].parent.None?
    ensures var list := earlier + forest[m - 1..];
            NestFrom(list, |earlier| + 1) == NestFrom(list, |earlier|)
  {
  }

  /** The roots stay where they are while everything below them moves back. */
  lemma {:induction false} RootsRestored(forest: seq<Node>, m: nat)
    requires m <= |forest| && Linked(forest) && UniqueKeys(FlatRoots(forest, m))
    ensures NestFrom(FlatRoots(forest, m) + forest[m..], |FlatRoots(forest, m)|) == forest
  {
    hide NestFrom;
    if m == 0 {
      assert [] + forest[0..] == forest;
      NestNone(forest);
    } else {
      var root := forest[m - 1];
      var earlier := FlatRoots(forest, m - 1);
      var before := earlier + [Strip(root)];
      assert FlatRoots(forest, m) == before + FlatItems(root.items);
      BlockAttaches(before, |earlier|, root.items, forest[m..]);
      assert |before| == |earlier| + 1;
      assert |FlatRoots(forest, m)| == |before| + |FlatItems(root.items)|;
      assert root.items + [] == root.items;
      assert WithItems(before, |earlier|, root.items) + forest[m..] == earlier + forest[m - 1..];
      RootStays(earlier, forest, m);
      assert SameKeys(earlier, FlatRoots(forest, m));
      KeysInherited(earlier, FlatRoots(forest, m));
      RootsRestored(forest, m - 1);
    }
  }

  /** Nesting undoes flattening, for every forest of any height whose items name their parents and
      share the section of their root, as long as no two items have the same key. */
  lemma NestUndoesFlatten(forest: seq<Node>)
    requires Linked(forest) && UniqueKeys(Flatten(forest, 1, Same()))
    ensures Nest(Flatten(forest, 1, Same())) == forest
  {
    var n := |forest|;
    assert forest[..n] == forest && forest[n..] == [];
    FlattenIsFlat(forest, n);
    assert FlatRoots(forest, n) + [] == FlatRoots(forest, n);
    RootsRestored(forest, n);
  }

  // ---------------------------------------------------------------- when nesting loses nothing

  /** The top-level items from k on. */
  ghost function RootsFrom(list: seq<Node>, k: nat): seq<Node>
    requires k <= |list|
    decreases |list| - k
  {
    if k == |list| then []
    else (if list[k].parent.None? then [list[k]] else []) + RootsFrom(list, k + 1)
  }

  /** Whether the parent of the item at k is listed before it, or is a top-level item after it. An
      item that names itself finds itself first. */
  ghost predicate FindsParent(list: seq<Node>, k: nat)
    requires k < |list|
  {
    || (exists i :: 0 <= i < k && NamesParent(list[k], list[i]))
    || (!NamesParent(list[k], list[k])
        && exists i :: k < i < |list| && list[i].parent.None? && NamesParent(list[k], list[i]))
  }

  ghost predicate SameLinks(a: Node, b: Node) {
    a.id == b.id && a.parent == b.parent && a.section == b.section
  }

  /** The list when the items from k on have been dealt with: the others are still there, and of
      those only the top-level ones. */
  ghost predicate Stage(list: seq<Node>, current: seq<Node>, k: nat) {
    && k <= |list|
    && |current| == k + |RootsFrom(list, k)|
    && (forall i :: 0 <= i < k ==> SameLinks(current[i], list[i]))
    && (forall i :: k <= i < |current| ==> SameLinks(current[i], RootsFrom(list, k)[i - k]))
  }

  ghost predicate AnyMatch(item: Node, list: seq<Node>) {
    exists i :: 0 <= i < |list| && Matches(item, list[i])
  }

  ghost predicate RootMatch(item: Node, list: seq<Node>, k: nat) {
    exists i :: k <= i < |list| && list[i].parent.None? && Matches(item, list[i])
  }

  lemma {:induction false} InRootsFrom(list: seq<Node>, k: nat, item: Node)
    requires k <= |list|
    ensures AnyMatch(item, RootsFrom(list, k)) <==> RootMatch(item, list, k)
    decreases |list| - k
  {
    if k < |list| {
      InRootsFrom(list, k + 1, item);
      RootsStep(list, k);
      MatchInConcat(item, list[k], RootsFrom(list, k + 1));
      assert RootMatch(item, list, k)
             <==> (list[k].parent.None? && Matches(item, list[k])) || RootMatch(item, list, k + 1) by {
        if i :| k <= i < |list| && list[i].parent.None? && Matches(item, list[i]) { assert i == k || k + 1 <= i; }
      }
    }
  }

  lemma MatchInConcat(item: Node, head: Node, rest: seq<Node>)
    ensures AnyMatch(item, [head] + rest) <==> Matches(item, head) || AnyMatch(item, rest)
  {
    var all := [head] + rest;
    assert all[0] == head;
    if i :| 0 <= i < |rest| && Matches(item, rest[i]) { assert all[i + 1] == rest[i]; }
    if i :| 0 <= i < |all| && Matches(item, all[i]) { assert i > 0 ==> all[i] == rest[i - 1]; }
  }

  lemma MatchesByLinks(item: Node, item': Node, i: Node, i': Node)
    requires SameLinks(item, item') && SameLinks(i, i')
    ensures Matches(item, i) <==> Matches(item', i')
  {
  }

  /** In a stage the item at k matches what it matches in the original list. */
  lemma StageMatches(list: seq<Node>, current: seq<Node>, k: nat)
    requires k < |list| && Stage(list, current, k + 1)
    ensures forall i :: 0 <= i < k + 1 ==> (Matches(current[k], current[i]) <==> Matches(list[k], list[i]))
    ensures |current| == k + 1 + |RootsFrom(list, k + 1)|
    ensures forall i :: k + 1 <= i < |current| ==>
      (Matches(current[k], current[i]) <==> Matches(list[k], RootsFrom(list, k + 1)[i - (k + 1)]))
  {
    hide RootsFrom, Matches, SameLinks;
    var roots := RootsFrom(list, k + 1);
    forall i | 0 <= i < k + 1
      ensures Matches(current[k], current[i]) <==> Matches(list[k], list[i])
    {
      MatchesByLinks(current[k], list[k], current[i], list[i]);
    }
    forall i | k + 1 <= i < |current|
      ensures Matches(current[k], current[i]) <==> Matches(list[k], roots[i - (k + 1)])
    {
      MatchesByLinks(current[k], list[k], current[i], roots[i - (k + 1)]);
    }
  }

  /** The step at k finds another item as parent exactly when the original list allows it. */
  lemma StageFinds(list: seq<Node>, current: seq<Node>, k: nat)
    requires k < |list| && Stage(list, current, k + 1)
    ensures var j := FindParent(current, current[k]);
            (j < |current| && j != k) <==> FindsParent(list, k)
  {
    hide RootsFrom, Matches, Stage;
    StageMatches(list, current, k);
    var item := current[k];
    var j := FindParent(current, item);
    var roots := RootsFrom(list, k + 1);
    InRootsFrom(list, k + 1, list[k]);
    if j < k {
      assert Matches(list[k], list[j]);
    } else if k < j < |current| {
      assert Matches(list[k], roots[j - (k + 1)]);
    }
    if i :| 0 <= i < |roots| && Matches(list[k], roots[i]) {
      assert Matches(item, current[i + (k + 1)]);
    }
  }

  lemma {:induction false} LabelsWith(list: seq<Node>, j: nat, item: Node)
    requires j < |list|
    ensures Labels(WithItems(list, j, [item])) == Labels(list) + Labels([item])
  {
    hide Labels;
    var grown := WithItems(list, j, [item]);
    HeadTail(list, []);
    HeadTail(grown, []);
    if j == 0 {
      LabelsOfOne(list[0], list[1..]);
      LabelsOfOne(grown[0], list[1..]);
      assert grown[1..] == list[1..];
      LabelsConcat([item], list[0].items);
    } else {
      LabelsWith(list[1..], j - 1, item);
      assert grown[1..] == WithItems(list[1..], j - 1, [item]);
      LabelsOfOne(list[0], list[1..]);
      LabelsOfOne(list[0], grown[1..]);
    }
  }

  lemma LabelsWithout(list: seq<Node>, k: nat)
    requires k < |list|
    ensures Labels(list) == Labels(list[..k] + list[k + 1..]) + Labels([list[k]])
  {
    hide Labels;
    assert list == list[..k] + ([list[k]] + list[k + 1..]);
    LabelsConcat(list[..k], [list[k]] + list[k + 1..]);
    LabelsConcat([list[k]], list[k + 1..]);
    LabelsConcat(list[..k], list[k + 1..]);
  }

  lemma WholeItem(item: Node)
    ensures Labels([item]) != multiset{}
  {
    LabelsOfOne(item, []);
    assert [item] + [] == [item];
    assert Strip(item) in Labels([item]);
  }

  /** A step that finds another item as the parent keeps every item. */
  lemma StepKeeps(list: seq<Node>, k: nat)
    requires k < |list| && list[k].parent.Some?
    requires FindParent(list, list[k]) < |list| && FindParent(list, list[k]) != k
    ensures Labels(NestStep(list, k)) == Labels(list)
  {
    hide Labels, FindParent;
    var grown := WithItems(list, FindParent(list, list[k]), [list[k]]);
    LabelsWith(list, FindParent(list, list[k]), list[k]);
    assert grown[k] == list[k];
    LabelsWithout(grown, k);
    assert NestStep(list, k) == grown[..k] + grown[k + 1..];
    Cancel(Labels(NestStep(list, k)), Labels(list), Labels([list[k]]));
  }

  lemma Cancel(a: multiset<Node>, b: multiset<Node>, x: multiset<Node>)
    requires a + x == b + x
    ensures a == b
  {
    assert a == (a + x) - x;
    assert b == (b + x) - x;
  }

  /** A step that finds none loses the item with all below it. */
  lemma StepLoses(list: seq<Node>, k: nat)
    requires k < |list| && list[k].parent.Some?
    requires FindParent(list, list[k]) == |list| || FindParent(list, list[k]) == k
    ensures Labels(list) == Labels(NestStep(list, k)) + Labels([list[k]])
  {
    hide Labels, FindParent;
    LabelsWithout(list, k);
    assert NestStep(list, k) == list[..k] + list[k + 1..];
  }

  lemma LinksAttached(list: seq<Node>, j: nat, item: Node)
    requires j < |list|
    ensures forall i :: 0 <= i < |list| ==> SameLinks(WithItems(list, j, [item])[i], list[i])
  {
  }

  lemma StageStep(list: seq<Node>, current: seq<Node>, k: nat)
    requires k < |list| && Stage(list, current, k + 1)
    ensures Stage(list, NestStep(current, k), k)
  {
    assert SameLinks(current[k], list[k]);
    RootsStep(list, k);
    hide RootsFrom;
    if current[k].parent.None? {
      StageStepIn(list, current, k);
    } else {
      hide Stage;
      StageStepOut(list, current, k);
    }
  }

  lemma StageStepIn(list: seq<Node>, current: seq<Node>, k: nat)
    requires k < |list| && Stage(list, current, k + 1)
    requires current[k].parent.None? && RootsFrom(list, k) == [list[k]] + RootsFrom(list, k + 1)
    ensures Stage(list, NestStep(current, k), k)
  {
    hide RootsFrom, SameLinks;
    var roots := RootsFrom(list, k + 1);
    assert NestStep(current, k) == current;
    forall i | k <= i < |current|
      ensures SameLinks(current[i], RootsFrom(list, k)[i - k])
    {
      if i > k {
        assert SameLinks(current[i], roots[i - (k + 1)]);
        assert RootsFrom(list, k)[i - k] == roots[i - (k + 1)];
      }
    }
  }

  lemma StageStepOut(list: seq<Node>, current: seq<Node>, k: nat)
    requires k < |list| && Stage(list, current, k + 1)
    requires current[k].parent.Some? && RootsFrom(list, k) == RootsFrom(list, k + 1)
    ensures Stage(list, NestStep(current, k), k)
  {
    StepKeepsLinks(current, k);
    hide RootsFrom, NestStep;
    StageWithout(list, current, NestStep(current, k), k);
  }

  /** A step takes the item at k out and changes no link of the others. */
  lemma StepKeepsLinks(current: seq<Node>, k: nat)
    requires k < |current| && current[k].parent.Some?
    ensures var next := NestStep(current, k);
            && |next| == |current| - 1
            && (forall i :: 0 <= i < k ==> SameLinks(next[i], current[i]))
            && (forall i :: k <= i < |next| ==> SameLinks(next[i], current[i + 1]))
  {
    hide FindParent;
    var j := FindParent(current, current[k]);
    var attached := current;
    if j < |current| {
      LinksAttached(current, j, current[k]);
      attached := WithItems(current, j, [current[k]]);
    }
    WithoutKeepsLinks(attached, current, k);
  }

  lemma StageWithout(list: seq<Node>, current: seq<Node>, next: seq<Node>, k: nat)
    requires k < |list| && Stage(list, current, k + 1) && RootsFrom(list, k) == RootsFrom(list, k + 1)
    requires |next| == |current| - 1
    requires forall i :: 0 <= i < k ==> SameLinks(next[i], current[i])
    requires forall i :: k <= i < |next| ==> SameLinks(next[i], current[i + 1])
    ensures Stage(list, next, k)
  {
    hide RootsFrom;
    forall i | k <= i < |next|
      ensures SameLinks(next[i], RootsFrom(list, k)[i - k])
    {
      assert SameLinks(current[i + 1], RootsFrom(list, k + 1)[i + 1 - (k + 1)]);
    }
  }

  lemma WithoutKeepsLinks(attached: seq<Node>, current: seq<Node>, k: nat)
    requires k < |attached| == |current|
    requires forall i :: 0 <= i < |current| ==> SameLinks(attached[i], current[i])
    ensures var next := attached[..k] + attached[k + 1..];
            && (forall i :: 0 <= i < k ==> SameLinks(next[i], current[i]))
            && (forall i :: k <= i < |next| ==> SameLinks(next[i], current[i + 1]))
  {
  }

  lemma RootsStep(list: seq<Node>, k: nat)
    requires k < |list|
    ensures RootsFrom(list, k)
            == if list[k].parent.None? then [list[k]] + RootsFrom(list, k + 1) else RootsFrom(list, k + 1)
  {
    assert [] + RootsFrom(list, k + 1) == RootsFrom(list, k + 1);
  }

  /** The step at k loses something exactly when the item at k has a parent and does not find it. */
  lemma StepLabels(list: seq<Node>, current: seq<Node>, k: nat)
    requires k < |list| && Stage(list, current, k + 1)
    ensures k < |current| && Labels(NestStep(current, k)) <= Labels(current)
    ensures Labels(NestStep(current, k)) == Labels(current) <==> (list[k].parent.Some? ==> FindsParent(list, k))
  {
    hide Labels, FindsParent, RootsFrom, NestStep, FindParent;
    assert SameLinks(current[k], list[k]);
    StageFinds(list, current, k);
    hide Stage, SameLinks;
    if list[k].parent.None? {
      NestSkips(current, k);
    } else if FindsParent(list, k) {
      StepKeeps(current, k);
    } else {
      StepLoses(current, k);
      WholeItem(current[k]);
    }
  }

  ghost predicate AllFindParents(list: seq<Node>, k: nat)
    requires k <= |list|
  {
    forall i :: 0 <= i < k && list[i].parent.Some? ==> FindsParent(list, i)
  }

  lemma {:induction false} NestLoses(list: seq<Node>, current: seq<Node>, k: nat)
    requires k <= |list| && Stage(list, current, k)
    ensures k <= |current| && Labels(NestFrom(current, k)) <= Labels(current)
    ensures Labels(NestFrom(current, k)) == Labels(current) <==> AllFindParents(list, k)
    decreases k
  {
    hide Labels, FindsParent, RootsFrom, NestFrom, NestStep, SameLinks;
    if k == 0 {
      NestNone(current);
    } else {
      StepLabels(list, current, k - 1);
      StageStep(list, current, k - 1);
      hide Stage;
      NestLoses(list, NestStep(current, k - 1), k - 1);
      NestOnce(current, k - 1, NestStep(current, k - 1));
    }
  }

  lemma NestSkips(list: seq<Node>, k: nat)
    requires k < |list| && list[k].parent.None?
    ensures NestStep(list, k) == list
  {
  }

  /** Nesting never makes up items, and it keeps all of them exactly when every item with a parent
      finds it before itself or among the top-level items after it. */
  lemma NestKeepsAllExactlyWhen(list: seq<Node>)
    ensures Labels(Nest(list)) <= Labels(list)
    ensures Labels(Nest(list)) == Labels(list)
            <==> forall k :: 0 <= k < |list| && list[k].parent.Some? ==> FindsParent(list, k)
  {
    NestLoses(list, list, |list|);
  }

  /** For instance, an item listed before its parent is lost when that parent has a parent itself. */
  lemma GrandchildBeforeChildIsLost(root: Node, child: Node, grandchild: Node)
    requires root.id.Some? && child.id.Some? && grandchild.id.Some?
    requires root.id != child.id && grandchild.id != child.id
    requires root.parent.None? && child.parent == root.id && grandchild.parent == child.id
    ensures Labels(Nest([root, grandchild, child])) != Labels([root, grandchild, child])
  {
    var list := [root, grandchild, child];
    NestKeepsAllExactlyWhen(list);
    assert list[1] == grandchild && list[1].parent.Some?;
  }
}
