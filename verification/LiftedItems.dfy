/** What an item brings along when compacting lifts it out of a tree: which fields are its own, which
    those of the item it was below, and which those of the nearest one above that has them. */
module LiftedItems {

  import opened Common
  import opened Navigation
  import opened CompactNavigation

  // ---------------------------------------------------------------- ways down to an item

  /** The items on the way from the second level down to an item, that item last. */
  type Trail = seq<Node>

  /** The trails of these items, then of those below each of them. */
  ghost function Trails(items: seq<Node>): seq<Trail>
    decreases items, 0, 1
  {
    TopTrails(items) + DeeperTrails(items, |items|)
  }

  ghost function TopTrails(items: seq<Node>): seq<Trail> {
    seq(|items|, i requires 0 <= i < |items| => [items[i]])
  }

  ghost function DeeperTrails(items: seq<Node>, m: nat): seq<Trail>
    requires m <= |items|
    decreases items, 0, 0, m
  {
    if m == 0 then [] else DeeperTrails(items, m - 1) + Under(items[m - 1], Trails(items[m - 1].items))
  }

  ghost function Under(node: Node, trails: seq<Trail>): seq<Trail> {
    seq(|trails|, i requires 0 <= i < |trails| => [node] + trails[i])
  }

  // ---------------------------------------------------------------- what is carried along

  /** Nearest to the end of the trail, the last item that says so. */
  ghost predicate NearestVisible(trail: Trail, visible: Option<bool>) {
    if visible.None? then forall k :: 0 <= k < |trail| ==> trail[k].visible.None?
    else exists k :: 0 <= k < |trail| && trail[k].visible == visible
                     && forall l :: k < l < |trail| ==> trail[l].visible.None?
  }

  ghost predicate NearestRole(trail: Trail, role: Option<Role>) {
    if role.None? then forall k :: 0 <= k < |trail| ==> trail[k].role.None?
    else exists k :: 0 <= k < |trail| && trail[k].role == role && forall l :: k < l < |trail| ==> trail[l].role.None?
  }

  /** The component names on the trail that are not empty, with dots between them. */
  ghost function Dotted(trail: Trail): string {
    if trail == [] then ""
    else
      var rest := Dotted(trail[1..]);
      if trail[0].component == "" then rest
      else if rest == "" then trail[0].component
      else trail[0].component + "." + rest
  }

  /** The section is the item's own, else that of the item just above it, else the header; items further
      up do not count. */
  ghost predicate SectionOf(item: Node, above: Node, section: Option<Section>) {
    if item.section.Some? then section == item.section
    else if above.section.Some? then section == above.section
    else section == Some(Section(["header"]))
  }

  /** The item at the end of the trail as it is listed; one of the second level is only stripped. A
      link is joined to the link of the item just above it when that belongs to no component. */
  ghost predicate Carries(join: LinkJoin, x: Node, trail: Trail) {
    && trail != []
    && var item := trail[|trail| - 1];
       && x.id == item.id && x.parent == item.parent && x.items == []
       && x.component == Dotted(trail) && NearestVisible(trail, x.visible) && NearestRole(trail, x.role)
       && if |trail| == 1 then x.mark == item.mark && x.section == item.section && x.link == item.link
          else
            var above := trail[|trail| - 2];
            && x.mark == above.id && SectionOf(item, above, x.section)
            && x.link == (if above.component == "" then join(above.link, item.link) else item.link)
  }

  ghost predicate PlainTrail(trail: Trail) {
    forall k :: 0 <= k < |trail| ==> trail[k].id.Some? && trail[k].mark.None?
  }

  ghost predicate AllCarry(join: LinkJoin, list: seq<Node>, trails: seq<Trail>) {
    && |list| == |trails|
    && forall i :: 0 <= i < |list| ==> Carries(join, list[i], trails[i]) && PlainTrail(trails[i])
  }

  lemma CarryOne(join: LinkJoin, node: Node)
    requires node.id.Some? && node.mark.None?
    ensures Carries(join, Strip(node), [node]) && PlainTrail([node])
  {
    assert [node][1..] == [];
    assert Dotted([node]) == node.component;
    assert NearestVisible([node], node.visible) by { assert [node][0].visible == node.visible; }
    assert NearestRole([node], node.role) by { assert [node][0].role == node.role; }
  }

  lemma VisibleAbove(node: Node, trail: Trail, visible: Option<bool>)
    requires NearestVisible(trail, visible)
    ensures NearestVisible([node] + trail, if visible.Some? then visible else node.visible)
  {
    var longer := [node] + trail;
    assert forall k :: 0 < k < |longer| ==> longer[k] == trail[k - 1];
    if visible.Some? {
      var k :| 0 <= k < |trail| && trail[k].visible == visible
               && forall l :: k < l < |trail| ==> trail[l].visible.None?;
      assert longer[k + 1].visible == visible;
    } else {
      assert longer[0].visible == node.visible;
    }
  }

  lemma RoleAbove(node: Node, trail: Trail, role: Option<Role>)
    requires NearestRole(trail, role)
    ensures NearestRole([node] + trail, if role.Some? then role else node.role)
  {
    var longer := [node] + trail;
    assert forall k :: 0 < k < |longer| ==> longer[k] == trail[k - 1];
    if role.Some? {
      var k :| 0 <= k < |trail| && trail[k].role == role
               && forall l :: k < l < |trail| ==> trail[l].role.None?;
      assert longer[k + 1].role == role;
    } else {
      assert longer[0].role == node.role;
    }
  }

  /** Lifting out of one more item puts that item in front of the trail. */
  lemma InheritCarries(join: LinkJoin, x: Node, trail: Trail, node: Node)
    requires Carries(join, x, trail) && PlainTrail(trail) && node.id.Some? && node.mark.None?
    ensures Carries(join, Inherit(join, x, Strip(node)), [node] + trail) && PlainTrail([node] + trail)
  {
    var longer := [node] + trail;
    VisibleAbove(node, trail, x.visible);
    RoleAbove(node, trail, x.role);
    assert longer[1..] == trail && longer[|longer| - 1] == trail[|trail| - 1];
    assert Dotted(longer) == JoinNames(node.component, Dotted(trail));
    hide NearestVisible, NearestRole, Dotted;
    if |trail| == 1 {
      assert longer[|longer| - 2] == node;
    } else {
      assert longer[|longer| - 2] == trail[|trail| - 2];
    }
  }

  lemma AllCarryConcat(join: LinkJoin, a: seq<Node>, b: seq<Node>, t: seq<Trail>, u: seq<Trail>)
    requires AllCarry(join, a, t) && AllCarry(join, b, u)
    ensures AllCarry(join, a + b, t + u)
  {
    hide Carries, PlainTrail;
  }

  // ---------------------------------------------------------------- the walk

  lemma {:induction false} WalkCarries(join: LinkJoin, items: seq<Node>, level: nat, m: nat)
    requires Plain(items) && level >= 2 && m <= |items|
    ensures AllCarry(join, Kept(items[..m], level, 2, Lifting(join)), TopTrails(items)[..m])
    ensures AllCarry(join, Lifted(items[..m], level, 2, Lifting(join)), DeeperTrails(items, m))
    decreases items, m
  {
    hide AllCarry, Walked, Kept, Lifted, LiftedFrom, Strip, Trails, Under;
    if m == 0 {
      WalkCarriesNothing(join, items, level);
    } else {
      var last := items[m - 1];
      var before := items[..m - 1];
      WalkCarries(join, items, level, m - 1);
      assert items[..m] == before + [last];
      KeptSnoc(before, last, level, 2, Lifting(join));
      LiftedSnoc(before, last, level, 2, Lifting(join));
      LiftedCarry(join, last, level);
      WalkedCarries(join, last, level);
      var walked := Walked(last, level, 2, Lifting(join));
      assert TopTrails(items)[..m] == TopTrails(items)[..m - 1] + [[last]];
      AllCarryConcat(join, Kept(before, level, 2, Lifting(join)), [Strip(walked)], TopTrails(items)[..m - 1], [[last]]);
      AllCarryConcat(join, Lifted(before, level, 2, Lifting(join)), LiftedFrom(walked, level, 2, Lifting(join)),
                     DeeperTrails(items, m - 1), Under(last, Trails(last.items)));
    }
  }

  lemma WalkCarriesNothing(join: LinkJoin, items: seq<Node>, level: nat)
    ensures AllCarry(join, Kept(items[..0], level, 2, Lifting(join)), TopTrails(items)[..0])
    ensures AllCarry(join, Lifted(items[..0], level, 2, Lifting(join)), DeeperTrails(items, 0))
  {
  }

  lemma WalkedCarries(join: LinkJoin, node: Node, level: nat)
    requires node.id.Some? && node.mark.None?
    ensures AllCarry(join, [Strip(Walked(node, level, 2, Lifting(join)))], [[node]])
  {
    CarryOne(join, node);
    assert Strip(Walked(node, level, 2, Lifting(join))) == Strip(node);
    hide Carries, PlainTrail, Walked, Strip;
  }

  lemma {:induction false} LiftedCarry(join: LinkJoin, node: Node, level: nat)
    requires Plain(node.items) && node.id.Some? && node.mark.None? && level >= 2
    ensures AllCarry(join, LiftedFrom(Walked(node, level, 2, Lifting(join)), level, 2, Lifting(join)),
                     Under(node, Trails(node.items)))
    decreases node.items, |node.items| + 1
  {
    hide AllCarry, Kept, Lifted, TopTrails, DeeperTrails, Inherit;
    var items := node.items;
    var n := |items|;
    WalkCarries(join, items, level + 1, n);
    assert items[..n] == items && |TopTrails(items)| == n by { TopTrailsAll(items); }
    assert TopTrails(items)[..n] == TopTrails(items);
    AllCarryConcat(join, Kept(items, level + 1, 2, Lifting(join)), Lifted(items, level + 1, 2, Lifting(join)),
                   TopTrails(items), DeeperTrails(items, n));
    var walked := Walked(node, level, 2, Lifting(join));
    assert walked.items == WalkedItems(items, level + 1, 2, Lifting(join));
    assert Strip(walked) == Strip(node);
    AllInherit(join, walked.items, Trails(items), node);
    assert LiftedFrom(walked, level, 2, Lifting(join)) == TransformAll(walked.items, Some(Strip(node)), Lifting(join));
  }

  lemma TopTrailsAll(items: seq<Node>)
    ensures |TopTrails(items)| == |items|
  {
  }

  lemma AllInherit(join: LinkJoin, list: seq<Node>, trails: seq<Trail>, node: Node)
    requires AllCarry(join, list, trails) && node.id.Some? && node.mark.None?
    ensures AllCarry(join, TransformAll(list, Some(Strip(node)), Lifting(join)), Under(node, trails))
  {
    hide Carries, PlainTrail, Inherit;
    forall i | 0 <= i < |list|
      ensures Carries(join, Inherit(join, list[i], Strip(node)), [node] + trails[i]) && PlainTrail([node] + trails[i])
    {
      InheritCarries(join, list[i], trails[i], node);
    }
  }

  /** For trees of any height: everything below a root is listed once, and each item brings along what
      the way down to it says. */
  lemma LiftedItemsCarry(join: LinkJoin, root: Node)
    requires Plain(root.items)
    ensures AllCarry(join, LiftedTree(join, root), Trails(root.items))
  {
    hide AllCarry, Kept, Lifted, TopTrails, DeeperTrails;
    var items := root.items;
    var n := |items|;
    WalkCarries(join, items, 2, n);
    assert items[..n] == items && TopTrails(items)[..n] == TopTrails(items) by { TopTrailsAll(items); }
    AllCarryConcat(join, Kept(items, 2, 2, Lifting(join)), Lifted(items, 2, 2, Lifting(join)),
                   TopTrails(items), DeeperTrails(items, n));
  }
}
