/** Which of the declared links composed menus lead to: all of them but those that a menu with others
    below it drops, and those below a lone menu that only gathers others. */
module MenuLinks {

  import opened Common
  import opened MenuDuplicates
  import opened ParsedNavigation

  // ---------------------------------------------------------------- how many entries menus leave

  /** The entries that these menus leave at their own level. */
  function Entries(navs: seq<Nav>, b: Blocklet, level: nat): nat
    decreases b, navs, 0
  {
    if navs == [] then 0 else EntriesOf(navs[0], b, level) + Entries(navs[1..], b, level)
  }

  function EntriesOf(nav: Nav, b: Blocklet, level: nat): nat
    decreases b, nav, 1
  {
    if nav.child.None? then if level > 1 && nav.items != [] then Entries(nav.items, b, level + 1) else 1
    else
      match FindChild(b.children, nav.child.value)
      case None => 0
      case Some(child) =>
        if child.navigation == [] then 1 else EntriesOfGroups(GroupsOf(child.navigation), child, level)
  }

  function EntriesOfGroups(groups: seq<Group>, child: Blocklet, level: nat): nat
    decreases child, groups, 2
  {
    if groups == [] then 0
    else EntriesOfGroup(groups[0].members, child, level) + EntriesOfGroups(groups[1..], child, level)
  }

  function EntriesOfGroup(group: seq<Nav>, child: Blocklet, level: nat): nat
    decreases child, group, 1
  {
    if |group| == 1 || level == 1 then 1 else Entries(group, child, level + 1)
  }

  /** Some of these menus leaves an entry with others below it. */
  predicate AnyGathers(navs: seq<Nav>, b: Blocklet, level: nat)
    decreases b, navs, 0
  {
    exists i :: 0 <= i < |navs| && Gathers(navs[i], b, level)
  }

  predicate Gathers(nav: Nav, b: Blocklet, level: nat)
    decreases b, nav, 1
  {
    if nav.child.None? then
      if level > 1 && nav.items != [] then AnyGathers(nav.items, b, level + 1)
      else Entries(nav.items, b, level + 1) > 0
    else
      var child := FindChild(b.children, nav.child.value);
      child.Some? &&
      var groups := GroupsOf(child.value.navigation);
      exists i :: 0 <= i < |groups| && GroupGathers(groups[i].members, child.value, level)
  }

  predicate GroupGathers(group: seq<Nav>, child: Blocklet, level: nat)
    decreases child, group, 1
  {
    if |group| == 1 then Entries(group, child, level + 1) > 1
    else if level == 1 then Entries(group, child, level + 1) > 0
    else AnyGathers(group, child, level + 1)
  }

  predicate IsHolder(m: Menu) {
    m.items != []
  }

  ghost predicate AnyHolder(menus: seq<Menu>) {
    exists m :: m in menus && IsHolder(m)
  }

  /** Below the top level an entry with others below it has no link. */
  ghost predicate HoldersHaveNoLink(menus: seq<Menu>) {
    forall m :: m in menus && IsHolder(m) ==> m.link.None?
  }

  ghost predicate Leaves(parsed: Parsed, entries: nat, gathers: bool, level: nat) {
    parsed.Some? ==>
      && |parsed.value| == entries
      && (AnyHolder(parsed.value) <==> gathers)
      && (level > 1 ==> HoldersHaveNoLink(parsed.value))
  }

  lemma LeavesAppend(one: Parsed, rest: Parsed, m: nat, n: nat, first: bool, later: bool, level: nat)
    requires Leaves(one, m, first, level) && Leaves(rest, n, later, level)
    ensures Leaves(Append(one, rest), m + n, first || later, level)
  {
  }

  lemma LeavesNothing(level: nat)
    ensures Leaves(Some([]), 0, false, level)
  {
  }

  lemma LeavesOne(m: Menu, level: nat)
    requires level > 1 && m.items != [] ==> m.link.None?
    ensures Leaves(Some([m]), 1, m.items != [], level)
  {
    assert m in [m];
  }

  lemma GathersHeadOrTail(navs: seq<Nav>, b: Blocklet, level: nat)
    requires navs != []
    ensures AnyGathers(navs, b, level) <==> Gathers(navs[0], b, level) || AnyGathers(navs[1..], b, level)
  {
    hide Gathers;
    assert forall i :: 0 < i < |navs| ==> navs[i] == navs[1..][i - 1];
    assert forall i :: 0 <= i < |navs[1..]| ==> navs[1..][i] == navs[i + 1];
  }

  /** Composing leaves as many entries as counted, and some with others below them exactly when some
      menu gathers. */
  lemma {:induction false} EntriesAreCounted(p: Paths, navs: seq<Nav>, b: Blocklet, prefix: Prefix, level: nat)
    requires level >= 1
    ensures Leaves(ParseAll(p, navs, b, prefix, level), Entries(navs, b, level), AnyGathers(navs, b, level), level)
    decreases b, navs, 0
  {
    if navs == [] {
      LeavesNothing(level);
    } else {
      EntriesOfAreCounted(p, navs[0], b, prefix, level);
      EntriesAreCounted(p, navs[1..], b, prefix, level);
      GathersHeadOrTail(navs, b, level);
      hide Leaves, ParseOne, EntriesOf, Gathers, AnyGathers, Append;
      LeavesAppend(ParseOne(p, navs[0], b, prefix, level), ParseAll(p, navs[1..], b, prefix, level),
                   EntriesOf(navs[0], b, level), Entries(navs[1..], b, level),
                   Gathers(navs[0], b, level), AnyGathers(navs[1..], b, level), level);
    }
  }

  lemma {:induction false} EntriesOfAreCounted(p: Paths, nav: Nav, b: Blocklet, prefix: Prefix, level: nat)
    requires level >= 1
    ensures Leaves(ParseOne(p, nav, b, prefix, level), EntriesOf(nav, b, level), Gathers(nav, b, level), level)
    decreases b, nav, 1
  {
    hide ParseAll, ParseGroups, Entries, EntriesOfGroups, AnyGathers, GroupGathers, GroupsOf, Leaves;
    if nav.child.None? {
      EntriesAreCounted(p, nav.items, b, prefix, level + 1);
      var list := ParseAll(p, nav.items, b, prefix, level + 1);
      if level > 1 && nav.items != [] {
        LeavesLater(list, Entries(nav.items, b, level + 1), AnyGathers(nav.items, b, level + 1), level + 1, level);
      } else if list.None? {
        LeavesNone(EntriesOf(nav, b, level), Gathers(nav, b, level), level);
      } else {
        LeavesCount(list, Entries(nav.items, b, level + 1), AnyGathers(nav.items, b, level + 1), level + 1);
        NoItemsNoEntries(p, nav.items, b, prefix, level + 1);
        LeavesOne(PlainEntry(p, nav, prefix, list.value), level);
      }
    } else {
      var found := FindChild(b.children, nav.child.value);
      if found.None? {
        LeavesNothing(level);
      } else {
        var child := found.value;
        var groups := GroupsOf(child.navigation);
        GroupsWhenMenus(child.navigation);
        if groups == [] {
          LeavesOne(ChildEntry(nav, TitleOf(child), None, None, None,
                               Some(p.resolve(prefix, Mounted(child.mountPoint))), []), level);
        } else {
          GroupsAreCounted(p, nav, groups, child, prefix, level);
        }
      }
    }
  }

  lemma LeavesNone(entries: nat, gathers: bool, level: nat)
    ensures Leaves(None, entries, gathers, level)
  {
  }

  lemma LeavesLater(parsed: Parsed, entries: nat, gathers: bool, later: nat, level: nat)
    requires Leaves(parsed, entries, gathers, later) && later > 1
    ensures Leaves(parsed, entries, gathers, level)
  {
  }

  lemma LeavesCount(parsed: Parsed, entries: nat, gathers: bool, level: nat)
    requires Leaves(parsed, entries, gathers, level)
    ensures parsed.Some? ==> |parsed.value| == entries
    ensures parsed.Some? && |parsed.value| == 1 ==> (parsed.value[0].items != [] <==> gathers)
    ensures parsed.Some? && |parsed.value| == 1 && level > 1 && gathers ==> parsed.value[0].link.None?
  {
    if parsed.Some? && |parsed.value| == 1 {
      var m := parsed.value[0];
      assert parsed.value == [m] && (IsHolder(m) <==> m.items != []);
    }
  }

  lemma NoItemsNoEntries(p: Paths, navs: seq<Nav>, b: Blocklet, prefix: Prefix, level: nat)
    ensures navs == [] ==> ParseAll(p, navs, b, prefix, level) == Some([]) && Entries(navs, b, level) == 0
  {
  }

  ghost predicate AnyGroupGathers(groups: seq<Group>, child: Blocklet, level: nat) {
    exists i :: 0 <= i < |groups| && GroupGathers(groups[i].members, child, level)
  }

  lemma GroupGathersHeadOrTail(groups: seq<Group>, child: Blocklet, level: nat)
    requires groups != []
    ensures AnyGroupGathers(groups, child, level)
       <==> GroupGathers(groups[0].members, child, level) || AnyGroupGathers(groups[1..], child, level)
  {
    hide GroupGathers;
    assert forall i :: 0 < i < |groups| ==> groups[i] == groups[1..][i - 1];
    assert forall i :: 0 <= i < |groups[1..]| ==> groups[1..][i] == groups[i + 1];
  }

  lemma {:induction false} GroupsAreCounted(p: Paths, nav: Nav, groups: seq<Group>, child: Blocklet, prefix: Prefix,
                                            level: nat)
    requires level >= 1
    ensures Leaves(ParseGroups(p, nav, groups, child, prefix, level), EntriesOfGroups(groups, child, level),
                   AnyGroupGathers(groups, child, level), level)
    decreases child, groups, 2
  {
    if groups == [] {
      LeavesNothing(level);
    } else {
      GroupIsCounted(p, nav, groups[0].members, child, prefix, level);
      GroupsAreCounted(p, nav, groups[1..], child, prefix, level);
      GroupGathersHeadOrTail(groups, child, level);
      hide Leaves, ParseGroup, EntriesOfGroup, GroupGathers, AnyGroupGathers, Append;
      LeavesAppend(ParseGroup(p, nav, groups[0].members, child, prefix, level),
                   ParseGroups(p, nav, groups[1..], child, prefix, level),
                   EntriesOfGroup(groups[0].members, child, level), EntriesOfGroups(groups[1..], child, level),
                   GroupGathers(groups[0].members, child, level), AnyGroupGathers(groups[1..], child, level), level);
    }
  }

  lemma {:induction false} GroupIsCounted(p: Paths, nav: Nav, group: seq<Nav>, child: Blocklet, prefix: Prefix,
                                          level: nat)
    requires level >= 1
    ensures Leaves(ParseGroup(p, nav, group, child, prefix, level), EntriesOfGroup(group, child, level),
                   GroupGathers(group, child, level), level)
    decreases child, group, 1
  {
    hide ParseAll, Entries, AnyGathers, Leaves;
    var under := p.under(prefix, child.mountPoint);
    EntriesAreCounted(p, group, child, under, level + 1);
    var list, parsed := ParseAll(p, group, child, under, level + 1), ParseGroup(p, nav, group, child, prefix, level);
    LeavesCount(list, Entries(group, child, level + 1), AnyGathers(group, child, level + 1), level + 1);
    if parsed.None? {
      LeavesNone(EntriesOfGroup(group, child, level), GroupGathers(group, child, level), level);
    } else if |group| == 1 || level == 1 {
      LeavesOne(parsed.value[0], level);
      assert parsed == Some([parsed.value[0]]);
    } else {
      LeavesLater(list, Entries(group, child, level + 1), AnyGathers(group, child, level + 1), level + 1, level);
    }
  }

  // ---------------------------------------------------------------- which links arrive

  ghost predicate LeadsTo(menus: seq<Menu>, link: Link) {
    exists m :: m in Walk(menus) && m.link == Some(link)
  }

  /** The link is that of one of these menus, or of one below them, and is not dropped on the way:
      a menu below the top level drops its own link when it has others below it, and a lone menu of
      a section that leaves just one entry, which gathers others, drops all of theirs. */
  ghost predicate Arrives(p: Paths, navs: seq<Nav>, b: Blocklet, prefix: Prefix, level: nat, link: Link)
    decreases b, navs, 0
  {
    exists i :: 0 <= i < |navs| && ArrivesFrom(p, navs[i], b, prefix, level, link)
  }

  ghost predicate ArrivesFrom(p: Paths, nav: Nav, b: Blocklet, prefix: Prefix, level: nat, link: Link)
    decreases b, nav, 1
  {
    if nav.child.None? then
      || (nav.link.Some? && (level <= 1 || nav.items == []) && link == p.resolve(prefix, Declared(nav.link.value)))
      || Arrives(p, nav.items, b, prefix, level + 1, link)
    else
      var child := FindChild(b.children, nav.child.value);
      child.Some? &&
      if child.value.navigation == [] then link == p.resolve(prefix, Mounted(child.value.mountPoint))
      else
        var groups := GroupsOf(child.value.navigation);
        exists i :: 0 <= i < |groups| && GroupArrives(p, groups[i].members, child.value, prefix, level, link)
  }

  /** The one entry the lone menu leaves only gathers others. */
  predicate Swallows(group: seq<Nav>, child: Blocklet, level: nat) {
    |group| == 1 && Entries(group, child, level) == 1 && AnyGathers(group, child, level)
  }

  ghost predicate GroupArrives(p: Paths, group: seq<Nav>, child: Blocklet, prefix: Prefix, level: nat, link: Link)
    decreases child, group, 1
  {
    !Swallows(group, child, level + 1) && Arrives(p, group, child, p.under(prefix, child.mountPoint), level + 1, link)
  }

  ghost predicate Agrees(parsed: Parsed, link: Link, arrives: bool) {
    parsed.Some? ==> (LeadsTo(parsed.value, link) <==> arrives)
  }

  lemma LeadsToConcat(a: seq<Menu>, b: seq<Menu>, link: Link)
    ensures LeadsTo(a + b, link) <==> LeadsTo(a, link) || LeadsTo(b, link)
  {
    WalkConcat(a, b);
    assert forall m :: m in Walk(a + b) <==> m in Walk(a) || m in Walk(b);
  }

  lemma {:induction false} WalkConcat(a: seq<Menu>, b: seq<Menu>)
    ensures Walk(a + b) == Walk(a) + Walk(b)
  {
    if a == [] {
      assert a + b == b;
    } else {
      TailConcat(a, b);
      WalkConcat(a[1..], b);
      ConcatIsAssociative([a[0]] + Walk(a[0].items), Walk(a[1..]), Walk(b));
    }
  }

  lemma LeadsToOne(m: Menu, link: Link)
    ensures LeadsTo([m], link) <==> m.link == Some(link) || LeadsTo(m.items, link)
  {
    WalkOne(m);
    assert forall x :: x in Walk([m]) <==> x == m || x in Walk(m.items);
  }

  lemma LeadsNowhere(link: Link)
    ensures !LeadsTo([], link)
  {
  }

  lemma AgreesAppend(one: Parsed, rest: Parsed, link: Link, first: bool, later: bool)
    requires Agrees(one, link, first) && Agrees(rest, link, later)
    ensures Agrees(Append(one, rest), link, first || later)
  {
    hide LeadsTo;
    if one.Some? && rest.Some? { LeadsToConcat(one.value, rest.value, link); }
  }

  lemma ArrivesHeadOrTail(p: Paths, navs: seq<Nav>, b: Blocklet, prefix: Prefix, level: nat, link: Link)
    requires navs != []
    ensures Arrives(p, navs, b, prefix, level, link)
       <==> ArrivesFrom(p, navs[0], b, prefix, level, link) || Arrives(p, navs[1..], b, prefix, level, link)
  {
    hide ArrivesFrom;
    assert forall i :: 0 < i < |navs| ==> navs[i] == navs[1..][i - 1];
    assert forall i :: 0 <= i < |navs[1..]| ==> navs[1..][i] == navs[i + 1];
  }

  /** Composed menus lead to a link, somewhere, exactly when it arrives. */
  lemma {:induction false} LinksArriveExactlyWhen(p: Paths, navs: seq<Nav>, b: Blocklet, prefix: Prefix, level: nat,
                                                  link: Link)
    requires level >= 1
    ensures Agrees(ParseAll(p, navs, b, prefix, level), link, Arrives(p, navs, b, prefix, level, link))
    decreases b, navs, 0
  {
    if navs == [] {
      LeadsNowhere(link);
    } else {
      LinkOfOneArrives(p, navs[0], b, prefix, level, link);
      LinksArriveExactlyWhen(p, navs[1..], b, prefix, level, link);
      ArrivesHeadOrTail(p, navs, b, prefix, level, link);
      hide Agrees, ParseOne, Arrives, ArrivesFrom, Append;
      AgreesAppend(ParseOne(p, navs[0], b, prefix, level), ParseAll(p, navs[1..], b, prefix, level), link,
                   ArrivesFrom(p, navs[0], b, prefix, level, link), Arrives(p, navs[1..], b, prefix, level, link));
    }
  }

  lemma {:induction false} LinkOfOneArrives(p: Paths, nav: Nav, b: Blocklet, prefix: Prefix, level: nat, link: Link)
    requires level >= 1
    ensures Agrees(ParseOne(p, nav, b, prefix, level), link, ArrivesFrom(p, nav, b, prefix, level, link))
    decreases b, nav, 1
  {
    hide ParseAll, ParseGroups, Arrives, GroupArrives, GroupsOf, LeadsTo;
    if nav.child.None? {
      LinksArriveExactlyWhen(p, nav.items, b, prefix, level + 1, link);
      var list := ParseAll(p, nav.items, b, prefix, level + 1);
      if list.Some? { LeadsToOne(PlainEntry(p, nav, prefix, list.value), link); }
    } else {
      var found := FindChild(b.children, nav.child.value);
      LeadsNowhere(link);
      if found.Some? {
        var child := found.value;
        GroupsWhenMenus(child.navigation);
        GroupsArrive(p, nav, GroupsOf(child.navigation), child, prefix, level, link);
        LeadsToOne(ChildEntry(nav, TitleOf(child), None, None, None,
                              Some(p.resolve(prefix, Mounted(child.mountPoint))), []), link);
      }
    }
  }

  ghost predicate AnyGroupArrives(p: Paths, groups: seq<Group>, child: Blocklet, prefix: Prefix, level: nat,
                                  link: Link)
  {
    exists i :: 0 <= i < |groups| && GroupArrives(p, groups[i].members, child, prefix, level, link)
  }

  lemma GroupArrivesHeadOrTail(p: Paths, groups: seq<Group>, child: Blocklet, prefix: Prefix, level: nat, link: Link)
    requires groups != []
    ensures AnyGroupArrives(p, groups, child, prefix, level, link)
       <==> || GroupArrives(p, groups[0].members, child, prefix, level, link)
            || AnyGroupArrives(p, groups[1..], child, prefix, level, link)
  {
    hide GroupArrives;
    assert forall i :: 0 < i < |groups| ==> groups[i] == groups[1..][i - 1];
    assert forall i :: 0 <= i < |groups[1..]| ==> groups[1..][i] == groups[i + 1];
  }

  lemma {:induction false} GroupsArrive(p: Paths, nav: Nav, groups: seq<Group>, child: Blocklet, prefix: Prefix,
                                        level: nat, link: Link)
    requires level >= 1
    ensures Agrees(ParseGroups(p, nav, groups, child, prefix, level), link,
                   AnyGroupArrives(p, groups, child, prefix, level, link))
    decreases child, groups, 2
  {
    if groups == [] {
      LeadsNowhere(link);
    } else {
      GroupArrivesWhen(p, nav, groups[0].members, child, prefix, level, link);
      GroupsArrive(p, nav, groups[1..], child, prefix, level, link);
      GroupArrivesHeadOrTail(p, groups, child, prefix, level, link);
      hide Agrees, ParseGroup, GroupArrives, AnyGroupArrives, Append;
      AgreesAppend(ParseGroup(p, nav, groups[0].members, child, prefix, level),
                   ParseGroups(p, nav, groups[1..], child, prefix, level), link,
                   GroupArrives(p, groups[0].members, child, prefix, level, link),
                   AnyGroupArrives(p, groups[1..], child, prefix, level, link));
    }
  }

  lemma {:induction false} GroupArrivesWhen(p: Paths, nav: Nav, group: seq<Nav>, child: Blocklet, prefix: Prefix,
                                            level: nat, link: Link)
    requires level >= 1
    ensures Agrees(ParseGroup(p, nav, group, child, prefix, level), link,
                   GroupArrives(p, group, child, prefix, level, link))
    decreases child, group, 1
  {
    hide ParseAll, Arrives, LeadsTo, Entries, AnyGathers, Leaves;
    var under := p.under(prefix, child.mountPoint);
    LinksArriveExactlyWhen(p, group, child, under, level + 1, link);
    EntriesAreCounted(p, group, child, under, level + 1);
    var list, parsed := ParseAll(p, group, child, under, level + 1), ParseGroup(p, nav, group, child, prefix, level);
    LeavesCount(list, Entries(group, child, level + 1), AnyGathers(group, child, level + 1), level + 1);
    LeadsNowhere(link);
    if parsed.Some? && (|group| == 1 || level == 1) {
      LeadsToOne(parsed.value[0], link);
      assert parsed == Some([parsed.value[0]]);
      if |list.value| == 1 {
        LeadsToOne(list.value[0], link);
        assert list.value == [list.value[0]];
      }
    }
  }

  /** For instance, nothing is led to by a menu for a component whose only menu stands for another
      component, whose only menu holds two others. */
  lemma WrappedLinksAreLost(p: Paths, nav: Nav, b: Blocklet, outer: Blocklet, first: Nav, inner: Blocklet, second: Nav,
                            x: Nav, y: Nav, prefix: Prefix, link: Link)
    requires nav.child.Some? && FindChild(b.children, nav.child.value) == Some(outer)
    requires outer.navigation == [first] && first.section.None?
    requires first.child.Some? && FindChild(outer.children, first.child.value) == Some(inner)
    requires inner.navigation == [second] && second.section.None? && second.child.None? && second.items == [x, y]
    requires x.child.None? && x.items == [] && y.child.None? && y.items == []
    ensures ParseAll(p, [nav], b, prefix, 1).Some?
    ensures !LeadsTo(ParseAll(p, [nav], b, prefix, 1).value, link)
  {
    hide Entries, AnyGathers, Swallows, Arrives, ArrivesFrom, LeadsTo, ParseAll, AnyStuck, AllVanish, AllFound,
         FindChild;
    HoldsTwo(second, x, y, inner);
    WrapsOne(first, outer, inner, second);
    NothingArrives(p, nav, b, outer, first, prefix, link);
    TwoFound(second, x, y, inner);
    OneFound(first, outer, inner);
    OneFound(nav, b, outer);
    AllFoundNeverStuck([nav], b, 1);
    ParseFailsExactlyWhen(p, [nav], b, prefix, 1);
    LinksArriveExactlyWhen(p, [nav], b, prefix, 1, link);
  }

  lemma LoneGroup(nav: Nav)
    requires nav.section.None?
    ensures GroupsOf([nav]) == [Group(UNDEFINED, [nav])]
  {
    assert [nav][..0] == [] && [UNDEFINED][..0] == [];
    assert AddSections([], nav, [UNDEFINED]) == AddTo([], UNDEFINED, nav);
  }

  lemma HoldsTwo(second: Nav, x: Nav, y: Nav, inner: Blocklet)
    requires second.child.None? && second.items == [x, y]
    requires x.child.None? && x.items == [] && y.child.None? && y.items == []
    ensures Entries([second], inner, 3) == 2
  {
    assert [x, y][1..] == [y] && [y][1..] == [] && [second][1..] == [];
    assert Entries([], inner, 4) == 0 && Entries([], inner, 3) == 0;
    assert EntriesOf(x, inner, 4) == 1 && EntriesOf(y, inner, 4) == 1;
    assert Entries([y], inner, 4) == 1;
    assert Entries([x, y], inner, 4) == 2;
    assert EntriesOf(second, inner, 3) == 2;
  }

  lemma WrapsOne(first: Nav, outer: Blocklet, inner: Blocklet, second: Nav)
    requires first.child.Some? && FindChild(outer.children, first.child.value) == Some(inner)
    requires inner.navigation == [second] && second.section.None? && Entries([second], inner, 3) == 2
    ensures Swallows([first], outer, 2)
  {
    LoneGroup(second);
    hide GroupsOf, FindChild;
    var groups := GroupsOf(inner.navigation);
    assert groups[1..] == [] && groups[0].members == [second];
    assert GroupGathers(groups[0].members, inner, 2);
    assert EntriesOfGroups(groups[1..], inner, 2) == 0 && EntriesOfGroups(groups, inner, 2) == 1;
    assert EntriesOf(first, outer, 2) == 1 && Gathers(first, outer, 2);
    assert [first][0] == first && [first][1..] == [] && Entries([], outer, 2) == 0;
  }

  lemma NothingArrives(p: Paths, nav: Nav, b: Blocklet, outer: Blocklet, first: Nav, prefix: Prefix, link: Link)
    requires nav.child.Some? && FindChild(b.children, nav.child.value) == Some(outer)
    requires outer.navigation == [first] && first.section.None? && Swallows([first], outer, 2)
    ensures !Arrives(p, [nav], b, prefix, 1, link)
  {
    LoneGroup(first);
    hide GroupsOf, Swallows, FindChild;
    assert GroupsOf(outer.navigation) == [Group(UNDEFINED, [first])];
    assert !GroupArrives(p, [first], outer, prefix, 1, link);
    assert !ArrivesFrom(p, nav, b, prefix, 1, link);
  }

  lemma TwoFound(second: Nav, x: Nav, y: Nav, inner: Blocklet)
    requires inner.navigation == [second] && second.child.None? && second.items == [x, y]
    requires x.child.None? && x.items == [] && y.child.None? && y.items == []
    ensures AllFound(inner.navigation, inner)
  {
    assert AllFound([], inner) && Found(x, inner) && Found(y, inner);
    assert AllFound([x, y], inner) && Found(second, inner);
  }

  lemma OneFound(nav: Nav, b: Blocklet, child: Blocklet)
    requires nav.child.Some? && FindChild(b.children, nav.child.value) == Some(child)
    requires AllFound(child.navigation, child)
    ensures AllFound([nav], b)
  {
    hide FindChild;
    assert Found(nav, b);
  }
}
