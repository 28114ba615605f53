/** What composed menus show, read line by line: every entry with its depth, what it carries from the
    menus and components it stands for, and which of the declared links it leads to. */
module MenuOutline {

  import opened Common
  import opened MenuDuplicates
  import opened ParsedNavigation

  datatype Line = Line(depth: nat, shown: Label)

  /** The entries as they are shown, each above those below it. */
  ghost function Show(menus: seq<Menu>, depth: nat): seq<Line> {
    if menus == [] then []
    else [Line(depth, LabelOf(menus[0]))] + Show(menus[0].items, depth + 1) + Show(menus[1..], depth)
  }

  // ---------------------------------------------------------------- what is declared

  /** The first of these that is there. */
  ghost function First<T>(choices: seq<Option<T>>): Option<T> {
    if choices == [] then None else if choices[0].Some? then choices[0] else First(choices[1..])
  }

  ghost function SectionsFrom(choices: seq<Option<seq<Section>>>): seq<Section> {
    var first := First(choices); if first.Some? then first.value else []
  }

  /** A menu's own line. */
  ghost function OwnLabel(p: Paths, nav: Nav, prefix: Prefix): Label {
    Label(nav.body, if nav.link.Some? then Some(p.resolve(prefix, Declared(nav.link.value))) else None,
          SectionsFrom([nav.section]))
  }

  /** The line of a menu that stands for a child: what it says itself comes first. */
  ghost function ChildLabel(nav: Nav, child: Blocklet, link: Option<Link>): Label {
    Label(Body(First([nav.body.title, child.title, Some(child.name)]), None, nav.body.icon, nav.body.role),
          link, SectionsFrom([nav.section]))
  }

  /** The same for a child that declares just this one menu; what the two leave out is the child's. */
  ghost function LoneLabel(nav: Nav, only: Nav, child: Blocklet, link: Option<Link>): Label {
    Label(Body(First([nav.body.title, only.body.title, child.title, Some(child.name)]), None,
               First([nav.body.icon, only.body.icon]), First([nav.body.role, only.body.role])),
          link, SectionsFrom([nav.section, only.section]))
  }

  /** The same for a group of menus of a section. */
  ghost function GroupLabel(nav: Nav, group: seq<Nav>, child: Blocklet): Label
    requires group != []
  {
    ChildLabel(nav, child, None).(section := SectionsFrom([nav.section, group[0].section]))
  }

  /** How many lines are at this depth. */
  ghost function Tops(lines: seq<Line>, depth: nat): nat {
    if lines == [] then 0 else (if lines[0].depth == depth then 1 else 0) + Tops(lines[1..], depth)
  }

  /** The outline of these menus: below the top level a menu with others is replaced by them. */
  ghost function Outline(p: Paths, navs: seq<Nav>, b: Blocklet, prefix: Prefix, level: nat, depth: nat): seq<Line>
    decreases b, navs, 0
  {
    if navs == [] then []
    else OutlineOne(p, navs[0], b, prefix, level, depth) + Outline(p, navs[1..], b, prefix, level, depth)
  }

  ghost function OutlineOne(p: Paths, nav: Nav, b: Blocklet, prefix: Prefix, level: nat, depth: nat): seq<Line>
    decreases b, nav, 1
  {
    if nav.child.None? then
      if level > 1 && nav.items != [] then Outline(p, nav.items, b, prefix, level + 1, depth)
      else [Line(depth, OwnLabel(p, nav, prefix))] + Outline(p, nav.items, b, prefix, level + 1, depth + 1)
    else
      match FindChild(b.children, nav.child.value)
      case None => []
      case Some(child) =>
        if child.navigation == [] then
          [Line(depth, ChildLabel(nav, child, Some(p.resolve(prefix, Mounted(child.mountPoint)))))]
        else OutlineGroups(p, nav, GroupsOf(child.navigation), child, prefix, level, depth)
  }

  ghost function OutlineGroups(p: Paths, nav: Nav, groups: seq<Group>, child: Blocklet, prefix: Prefix, level: nat,
                               depth: nat): seq<Line>
    decreases child, groups, 2
  {
    if groups == [] then []
    else OutlineGroup(p, nav, groups[0].members, child, prefix, level, depth)
         + OutlineGroups(p, nav, groups[1..], child, prefix, level, depth)
  }

  /** A section's menus of a child: a lone one gives its link to the menu that stands for it, unless it
      stands for several lines itself; several ones are gathered under one line at the top level. */
  ghost function OutlineGroup(p: Paths, nav: Nav, group: seq<Nav>, child: Blocklet, prefix: Prefix, level: nat,
                              depth: nat): seq<Line>
    decreases child, group, 1
  {
    var under := p.under(prefix, child.mountPoint);
    if |group| == 1 then
      var inner := Outline(p, group, child, under, level + 1, depth + 1);
      if inner != [] && Tops(inner, depth + 1) == 1
      then [Line(depth, LoneLabel(nav, group[0], child, inner[0].shown.link))]
      else [Line(depth, LoneLabel(nav, group[0], child, None))] + inner
    else if level == 1 && group != [] then
      [Line(depth, GroupLabel(nav, group, child))] + Outline(p, group, child, under, level + 1, depth + 1)
    else Outline(p, group, child, under, level + 1, depth)
  }

  // ---------------------------------------------------------------- what is shown

  lemma {:induction false} ShowConcat(a: seq<Menu>, b: seq<Menu>, depth: nat)
    ensures Show(a + b, depth) == Show(a, depth) + Show(b, depth)
  {
    if a == [] {
      assert a + b == b;
    } else {
      TailConcat(a, b);
      ShowConcat(a[1..], b, depth);
    }
  }

  lemma ShowOne(m: Menu, depth: nat)
    ensures Show([m], depth) == [Line(depth, LabelOf(m))] + Show(m.items, depth + 1)
  {
    assert [m][1..] == [];
  }

  lemma {:induction false} TopsConcat(a: seq<Line>, b: seq<Line>, depth: nat)
    ensures Tops(a + b, depth) == Tops(a, depth) + Tops(b, depth)
  {
    if a == [] {
      assert a + b == b;
    } else {
      TailConcat(a, b);
      TopsConcat(a[1..], b, depth);
    }
  }

  lemma {:induction false} NoTopsAbove(menus: seq<Menu>, depth: nat, above: nat)
    requires above < depth
    ensures Tops(Show(menus, depth), above) == 0
    decreases menus
  {
    if menus != [] {
      NoTopsAbove(menus[0].items, depth + 1, above);
      NoTopsAbove(menus[1..], depth, above);
      TopsConcat([Line(depth, LabelOf(menus[0]))], Show(menus[0].items, depth + 1), above);
      TopsConcat([Line(depth, LabelOf(menus[0]))] + Show(menus[0].items, depth + 1), Show(menus[1..], depth), above);
    }
  }

  lemma {:induction false} TopsAreEntries(menus: seq<Menu>, depth: nat)
    ensures Tops(Show(menus, depth), depth) == |menus|
    decreases menus
  {
    if menus != [] {
      NoTopsAbove(menus[0].items, depth + 1, depth);
      TopsAreEntries(menus[1..], depth);
      TopsConcat([Line(depth, LabelOf(menus[0]))], Show(menus[0].items, depth + 1), depth);
      TopsConcat([Line(depth, LabelOf(menus[0]))] + Show(menus[0].items, depth + 1), Show(menus[1..], depth), depth);
    }
  }

  lemma FirstOfFew<T>(a: Option<T>, b: Option<T>, c: Option<T>, d: Option<T>)
    ensures First([a]) == a
    ensures First([a, b]) == Or(a, b)
    ensures First([a, b, c]) == Or(a, Or(b, c))
    ensures First([a, b, c, d]) == Or(a, Or(b, Or(c, d)))
  {
    assert [a] + [] == [a] && [a] + [b] == [a, b] && [a] + [b, c] == [a, b, c] && [a] + [b, c, d] == [a, b, c, d];
    assert [b] + [] == [b] && [b] + [c] == [b, c] && [b] + [c, d] == [b, c, d];
    assert [c] + [] == [c] && [c] + [d] == [c, d] && [d] + [] == [d];
    FirstIsOr(a, []);
    FirstIsOr(a, [b]);
    FirstIsOr(a, [b, c]);
    FirstIsOr(a, [b, c, d]);
    FirstIsOr(b, []);
    FirstIsOr(b, [c]);
    FirstIsOr(b, [c, d]);
    FirstIsOr(c, []);
    FirstIsOr(c, [d]);
    FirstIsOr(d, []);
  }

  lemma FirstIsOr<T>(a: Option<T>, rest: seq<Option<T>>)
    ensures First([a] + rest) == Or(a, First(rest))
  {
    assert ([a] + rest)[1..] == rest;
  }

  lemma PlainEntryLabel(p: Paths, nav: Nav, prefix: Prefix, items: seq<Menu>)
    ensures LabelOf(PlainEntry(p, nav, prefix, items)) == OwnLabel(p, nav, prefix)
  {
    FirstOfFew(nav.section, None, None, None);
  }

  lemma ChildEntryLabel(nav: Nav, child: Blocklet, link: Option<Link>, items: seq<Menu>)
    ensures LabelOf(ChildEntry(nav, TitleOf(child), None, None, None, link, items)) == ChildLabel(nav, child, link)
  {
    FirstOfFew(nav.body.title, child.title, Some(child.name), None);
    FirstOfFew(nav.section, None, None, None);
  }

  lemma LoneEntryLabel(nav: Nav, only: Nav, child: Blocklet, link: Option<Link>, items: seq<Menu>)
    ensures LabelOf(ChildEntry(nav, Or(only.body.title, TitleOf(child)), only.body.icon, only.body.role, only.section,
                               link, items))
         == LoneLabel(nav, only, child, link)
  {
    FirstOfFew(nav.body.title, only.body.title, child.title, Some(child.name));
    FirstOfFew(nav.body.icon, only.body.icon, None, None);
    FirstOfFew(nav.body.role, only.body.role, None, None);
    FirstOfFew(nav.section, only.section, None, None);
  }

  lemma GroupEntryLabel(nav: Nav, group: seq<Nav>, child: Blocklet, items: seq<Menu>)
    requires group != []
    ensures var section := if ListOf(group[0].section) == [] then None else group[0].section;
            LabelOf(ChildEntry(nav, TitleOf(child), None, None, section, None, items)) == GroupLabel(nav, group, child)
  {
    ChildEntryLabel(nav, child, None, items);
    FirstOfFew(nav.section, group[0].section, None, None);
  }

  ghost predicate Shows(parsed: Parsed, lines: seq<Line>, depth: nat) {
    parsed.Some? ==> Show(parsed.value, depth) == lines
  }

  lemma ShowsAppend(one: Parsed, rest: Parsed, a: seq<Line>, b: seq<Line>, depth: nat)
    requires Shows(one, a, depth) && Shows(rest, b, depth)
    ensures Shows(Append(one, rest), a + b, depth)
  {
    if one.Some? && rest.Some? { ShowConcat(one.value, rest.value, depth); }
  }

  /** Composed menus show exactly the outline of what is declared: every line at its place and its
      depth, with its title, icon, role, section and link. */
  lemma {:induction false} ComposedAsOutlined(p: Paths, navs: seq<Nav>, b: Blocklet, prefix: Prefix, level: nat,
                                              depth: nat)
    ensures Shows(ParseAll(p, navs, b, prefix, level), Outline(p, navs, b, prefix, level, depth), depth)
    decreases b, navs, 0
  {
    if navs != [] {
      OneAsOutlined(p, navs[0], b, prefix, level, depth);
      ComposedAsOutlined(p, navs[1..], b, prefix, level, depth);
      hide Shows, ParseOne, OutlineOne, Append;
      ShowsAppend(ParseOne(p, navs[0], b, prefix, level), ParseAll(p, navs[1..], b, prefix, level),
                  OutlineOne(p, navs[0], b, prefix, level, depth),
                  Outline(p, navs[1..], b, prefix, level, depth), depth);
    }
  }

  lemma {:induction false} OneAsOutlined(p: Paths, nav: Nav, b: Blocklet, prefix: Prefix, level: nat, depth: nat)
    ensures Shows(ParseOne(p, nav, b, prefix, level), OutlineOne(p, nav, b, prefix, level, depth), depth)
    decreases b, nav, 1
  {
    hide ParseAll, ParseGroups, Outline, OutlineGroups, GroupsOf;
    if nav.child.None? {
      var list := ParseAll(p, nav.items, b, prefix, level + 1);
      if level > 1 && nav.items != [] {
        ComposedAsOutlined(p, nav.items, b, prefix, level + 1, depth);
      } else {
        ComposedAsOutlined(p, nav.items, b, prefix, level + 1, depth + 1);
        if list.Some? {
          ShowOne(PlainEntry(p, nav, prefix, list.value), depth);
          PlainEntryLabel(p, nav, prefix, list.value);
        }
      }
    } else {
      var found := FindChild(b.children, nav.child.value);
      if found.Some? {
        var child := found.value;
        GroupsWhenMenus(child.navigation);
        GroupsAsOutlined(p, nav, GroupsOf(child.navigation), child, prefix, level, depth);
        var link := Some(p.resolve(prefix, Mounted(child.mountPoint)));
        ShowOne(ChildEntry(nav, TitleOf(child), None, None, None, link, []), depth);
        ChildEntryLabel(nav, child, link, []);
      }
    }
  }

  lemma {:induction false} GroupsAsOutlined(p: Paths, nav: Nav, groups: seq<Group>, child: Blocklet, prefix: Prefix,
                                            level: nat, depth: nat)
    ensures Shows(ParseGroups(p, nav, groups, child, prefix, level),
                  OutlineGroups(p, nav, groups, child, prefix, level, depth), depth)
    decreases child, groups, 2
  {
    if groups != [] {
      GroupAsOutlined(p, nav, groups[0].members, child, prefix, level, depth);
      GroupsAsOutlined(p, nav, groups[1..], child, prefix, level, depth);
      hide Shows, ParseGroup, OutlineGroup, Append;
      ShowsAppend(ParseGroup(p, nav, groups[0].members, child, prefix, level),
                  ParseGroups(p, nav, groups[1..], child, prefix, level),
                  OutlineGroup(p, nav, groups[0].members, child, prefix, level, depth),
                  OutlineGroups(p, nav, groups[1..], child, prefix, level, depth), depth);
    }
  }

  lemma {:induction false} GroupAsOutlined(p: Paths, nav: Nav, group: seq<Nav>, child: Blocklet, prefix: Prefix,
                                           level: nat, depth: nat)
    ensures Shows(ParseGroup(p, nav, group, child, prefix, level),
                  OutlineGroup(p, nav, group, child, prefix, level, depth), depth)
    decreases child, group, 1
  {
    hide ParseAll, Outline, Show;
    var under := p.under(prefix, child.mountPoint);
    ComposedAsOutlined(p, group, child, under, level + 1, depth);
    ComposedAsOutlined(p, group, child, under, level + 1, depth + 1);
    var list := ParseAll(p, group, child, under, level + 1);
    if list.Some? && group != [] {
      TopsAreEntries(list.value, depth + 1);
      if list.value != [] { ShowsFirst(list.value, depth + 1); }
      EntriesAsOutlined(nav, child, group, list.value, level, depth);
      ShowNone(depth + 1);
    }
  }

  lemma EntriesAsOutlined(nav: Nav, child: Blocklet, group: seq<Nav>, list: seq<Menu>, level: nat, depth: nat)
    requires group != []
    ensures var parsed := GroupEntries(nav, child, group, list, level);
            && (parsed.Some? && |group| == 1 && |list| == 1 ==>
                  Show(parsed.value, depth) == [Line(depth, LoneLabel(nav, group[0], child, list[0].link))])
            && (parsed.Some? && |group| == 1 && |list| != 1 ==>
                  Show(parsed.value, depth)
                  == [Line(depth, LoneLabel(nav, group[0], child, None))] + Show(list, depth + 1) && list != [])
            && (parsed.Some? && |group| != 1 && level == 1 ==>
                  Show(parsed.value, depth) == [Line(depth, GroupLabel(nav, group, child))] + Show(list, depth + 1))
            && (|group| != 1 && level != 1 ==> parsed == Some(list))
  {
    hide Show, LoneLabel, GroupLabel, ChildLabel, LabelOf, ChildEntry;
    var parsed := GroupEntries(nav, child, group, list, level);
    ShowNone(depth + 1);
    var link := if list != [] then list[0].link else None;
    LoneEntryLabel(nav, group[0], child, link, []);
    LoneEntryLabel(nav, group[0], child, None, list);
    GroupEntryLabel(nav, group, child, list);
    if parsed.Some? && |parsed.value| == 1 { ShowOne(parsed.value[0], depth); }
    ChildEntryHolds(nav);
  }

  lemma ChildEntryHolds(nav: Nav)
    ensures forall title, icon, role, section, l, items ::
      ChildEntry(nav, title, icon, role, section, l, items).items == items
  {
  }

  lemma ShowsFirst(menus: seq<Menu>, depth: nat)
    requires menus != []
    ensures Show(menus, depth) != [] && Show(menus, depth)[0] == Line(depth, LabelOf(menus[0]))
  {
  }

  lemma ShowNone(depth: nat)
    ensures Show([], depth) == []
  {
  }
}
