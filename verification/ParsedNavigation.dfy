/** Menus of composed blocklets (blocklet/meta parse-navigation): a menu that names a child component
    is replaced by what that child declares, section by section and all the way down. */
module ParsedNavigation {

  import opened Common
  import opened MenuDuplicates

  /** A link as it is declared, or a child's mount point taken as a link. */
  datatype Target = Declared(text: Word) | Mounted(mountPoint: Option<Word>)

  datatype Prefix = Prefix(path: string)

  /** How links and mount points are joined to a prefix; the text of a link is left open. */
  datatype Paths = Paths(resolve: (Prefix, Target) -> Link, under: (Prefix, Option<Word>) -> Prefix)

  /** A menu as a component declares it. No section and an empty list of sections are not the same. */
  datatype Nav = Nav(body: Body, section: Option<seq<Section>>, link: Option<Word>, child: Option<Word>,
                     items: seq<Nav>)

  /** A component; one without children stands for a missing one as well. */
  datatype Blocklet = Blocklet(name: Word, did: Word, title: Option<Word>, mountPoint: Option<Word>,
                               navigation: seq<Nav>, children: seq<Blocklet>)

  const UNDEFINED := Section("__undefined__")

  // ---------------------------------------------------------------- groups by section

  datatype Group = Group(key: Section, members: seq<Nav>)

  function SectionsOf(nav: Nav): (sections: seq<Section>)
    ensures sections != []
    ensures nav.section == None || nav.section == Some([]) ==> sections == [Section("__undefined__")]
  {
    if nav.section.None? || nav.section.value == [] then [UNDEFINED] else nav.section.value
  }

  /** A menu as it goes to one of its sections. */
  function Restricted(nav: Nav, key: Section): Nav {
    if nav.section.None? then nav else nav.(section := Some(if key == UNDEFINED then [] else [key]))
  }

  function Place(groups: seq<Group>, key: Section): (i: nat)
    ensures i <= |groups| && (i < |groups| ==> groups[i].key == key)
    ensures forall j :: 0 <= j < i ==> groups[j].key != key
  {
    if groups == [] || groups[0].key == key then 0 else 1 + Place(groups[1..], key)
  }

  function AddTo(groups: seq<Group>, key: Section, item: Nav): seq<Group> {
    var i := Place(groups, key);
    if i < |groups| then groups[i := Group(key, groups[i].members + [item])] else groups + [Group(key, [item])]
  }

  function AddSections(groups: seq<Group>, nav: Nav, sections: seq<Section>): seq<Group> {
    if sections == [] then groups
    else
      var n := |sections| - 1;
      AddTo(AddSections(groups, nav, sections[..n]), sections[n], Restricted(nav, sections[n]))
  }

  function GroupsOf(navs: seq<Nav>): seq<Group> {
    if navs == [] then []
    else
      var n := |navs| - 1;
      AddSections(GroupsOf(navs[..n]), navs[n], SectionsOf(navs[n]))
  }

  /** The members of a section's group. */
  function Members(groups: seq<Group>, key: Section): seq<Nav> {
    var i := Place(groups, key);
    if i < |groups| then groups[i].members else []
  }

  /** As often as the section is among these, the menu. */
  function Times(nav: Nav, sections: seq<Section>, key: Section): seq<Nav> {
    if sections == [] then []
    else
      var n := |sections| - 1;
      Times(nav, sections[..n], key) + if sections[n] == key then [Restricted(nav, key)] else []
  }

  /** The menus of a section, in order, and once for each time they name it. */
  function InSection(navs: seq<Nav>, key: Section): seq<Nav> {
    if navs == [] then []
    else
      var n := |navs| - 1;
      InSection(navs[..n], key) + Times(navs[n], SectionsOf(navs[n]), key)
  }

  ghost predicate KeysDiffer(groups: seq<Group>) {
    forall i, j :: 0 <= i < j < |groups| ==> groups[i].key != groups[j].key
  }

  ghost predicate NoneEmpty(groups: seq<Group>) {
    forall i :: 0 <= i < |groups| ==> groups[i].members != []
  }

  ghost predicate Sound(groups: seq<Group>) {
    KeysDiffer(groups) && NoneEmpty(groups)
  }

  lemma MembersAt(groups: seq<Group>, i: nat)
    requires KeysDiffer(groups) && i < |groups|
    ensures Members(groups, groups[i].key) == groups[i].members
  {
    var j := Place(groups, groups[i].key);
    assert j <= i;
  }

  lemma AddToOne(groups: seq<Group>, key: Section, item: Nav, other: Section)
    requires Sound(groups)
    ensures Sound(AddTo(groups, key, item))
    ensures Members(AddTo(groups, key, item), other)
         == Members(groups, other) + if other == key then [item] else []
  {
    var i := Place(groups, key);
    var after := AddTo(groups, key, item);
    assert forall j :: 0 <= j < |groups| ==> after[j].key == groups[j].key;
    assert KeysDiffer(after);
    var k := Place(after, other);
    if k < |after| {
      MembersAt(after, k);
      if k < |groups| { MembersAt(groups, k); }
    }
    assert Place(groups, other) < |groups| ==> after[Place(groups, other)].key == other;
    assert i < |groups| || after[|groups|].key == key;
  }

  lemma {:induction false} AddSectionsOne(groups: seq<Group>, nav: Nav, sections: seq<Section>, key: Section)
    requires Sound(groups)
    ensures Sound(AddSections(groups, nav, sections))
    ensures Members(AddSections(groups, nav, sections), key) == Members(groups, key) + Times(nav, sections, key)
    decreases |sections|
  {
    hide Sound, Members, AddTo;
    if sections != [] {
      var n := |sections| - 1;
      AddSectionsOne(groups, nav, sections[..n], key);
      AddToOne(AddSections(groups, nav, sections[..n]), sections[n], Restricted(nav, sections[n]), key);
    }
  }

  /** Grouping loses nothing and adds nothing: a section's group holds the menus of that section, in
      their order; sections do not repeat, and no group is empty. */
  lemma {:induction false} GroupsAreTheSections(navs: seq<Nav>, key: Section)
    ensures Sound(GroupsOf(navs)) && Members(GroupsOf(navs), key) == InSection(navs, key)
    decreases |navs|
  {
    hide AddSections, Members;
    if navs == [] {
      NoMembers(key);
    } else {
      var n := |navs| - 1;
      GroupsAreTheSections(navs[..n], key);
      AddSectionsOne(GroupsOf(navs[..n]), navs[n], SectionsOf(navs[n]), key);
    }
  }

  lemma GroupsWhenMenus(navs: seq<Nav>)
    ensures GroupsOf(navs) == [] <==> navs == []
    ensures NoneEmpty(GroupsOf(navs))
  {
    GroupsAreTheSections(navs, UNDEFINED);
    if navs != [] {
      var last := navs[|navs| - 1];
      GroupsAreTheSections(navs, SectionsOf(last)[|SectionsOf(last)| - 1]);
    }
  }

  lemma NoMembers(key: Section)
    ensures Members([], key) == []
  {
  }

  // ---------------------------------------------------------------- parsing

  function Or<T>(a: Option<T>, b: Option<T>): Option<T> {
    if a.Some? then a else b
  }

  function ListOf<T>(s: Option<seq<T>>): seq<T> {
    if s.Some? then s.value else []
  }

  ghost predicate Answers(child: Blocklet, name: Word) {
    child.name == name || child.did == name
  }

  ghost predicate AnswersFirst(children: seq<Blocklet>, i: nat, name: Word)
    requires i < |children|
  {
    Answers(children[i], name) && forall j :: 0 <= j < i ==> !Answers(children[j], name)
  }

  /** The first child with this name or DID. */
  function FindChild(children: seq<Blocklet>, name: Word): (child: Option<Blocklet>)
    ensures child.Some? ==> child.value in children
    ensures child.None? ==> forall i :: 0 <= i < |children| ==> !Answers(children[i], name)
    ensures child.Some? ==>
              exists i :: 0 <= i < |children| && children[i] == child.value && AnswersFirst(children, i, name)
  {
    if children == [] then None
    else if children[0].name == name || children[0].did == name then
      assert AnswersFirst(children, 0, name);
      Some(children[0])
    else
      var later := FindChild(children[1..], name);
      assert later.Some? ==>
               exists i :: 0 <= i < |children| && children[i] == later.value && AnswersFirst(children, i, name)
      by {
        if later.Some? {
          var i :| 0 <= i < |children[1..]| && children[1..][i] == later.value && AnswersFirst(children[1..], i, name);
          assert AnswersFirst(children, i + 1, name);
        }
      }
      later
  }

  function TitleOf(child: Blocklet): Option<Word> {
    Or(child.title, Some(child.name))
  }

  /** An entry for a menu that names no child. */
  function PlainEntry(p: Paths, nav: Nav, prefix: Prefix, items: seq<Menu>): Menu {
    Menu(nav.body, if nav.link.Some? then Some(p.resolve(prefix, Declared(nav.link.value))) else None,
         ListOf(nav.section), false, items)
  }

  /** An entry for a menu that names a child, with what it takes from the child. */
  function ChildEntry(nav: Nav, title: Option<Word>, icon: Option<Word>, role: Option<Word>,
                      section: Option<seq<Section>>, link: Option<Link>, items: seq<Menu>): Menu
  {
    Menu(Body(Or(nav.body.title, title), None, Or(nav.body.icon, icon), Or(nav.body.role, role)), link,
         ListOf(Or(nav.section, section)), false, items)
  }

  /** None stands for an exception. */
  type Parsed = Option<seq<Menu>>

  function Append(a: Parsed, b: Parsed): Parsed {
    if a.None? || b.None? then None else Some(a.value + b.value)
  }

  /** What becomes of one group of a child's menus, whose own parse is `list`. Taking the link of the
      first entry of a list that has none is an exception. */
  function GroupEntries(nav: Nav, child: Blocklet, group: seq<Nav>, list: seq<Menu>, level: nat): Parsed
    requires group != []
  {
    if |group| == 1 then
      var only := group[0];
      var title := Or(only.body.title, TitleOf(child));
      if list == [] then None
      else if |list| == 1 then
        Some([ChildEntry(nav, title, only.body.icon, only.body.role, only.section, list[0].link, [])])
      else Some([ChildEntry(nav, title, only.body.icon, only.body.role, only.section, None, list)])
    else if level == 1 then
      var section := if ListOf(group[0].section) == [] then None else group[0].section;
      Some([ChildEntry(nav, TitleOf(child), None, None, section, None, list)])
    else Some(list)
  }

  /** `doParseNavigation`. */
  function ParseAll(p: Paths, navs: seq<Nav>, b: Blocklet, prefix: Prefix, level: nat): Parsed
    decreases b, navs, 0
  {
    if navs == [] then Some([])
    else Append(ParseOne(p, navs[0], b, prefix, level), ParseAll(p, navs[1..], b, prefix, level))
  }

  function ParseOne(p: Paths, nav: Nav, b: Blocklet, prefix: Prefix, level: nat): Parsed
    decreases b, nav, 1
  {
    if nav.child.None? then
      var list := ParseAll(p, nav.items, b, prefix, level + 1);
      if list.None? then None
      else if level > 1 && nav.items != [] then list
      else Some([PlainEntry(p, nav, prefix, list.value)])
    else
      var child := FindChild(b.children, nav.child.value);
      if child.None? then Some([])
      else
        var groups := GroupsOf(child.value.navigation);
        if groups == [] then
          Some([ChildEntry(nav, TitleOf(child.value), None, None, None,
                           Some(p.resolve(prefix, Mounted(child.value.mountPoint))), [])])
        else ParseGroups(p, nav, groups, child.value, prefix, level)
  }

  function ParseGroups(p: Paths, nav: Nav, groups: seq<Group>, child: Blocklet, prefix: Prefix, level: nat): Parsed
    decreases child, groups, 2
  {
    if groups == [] then Some([])
    else Append(ParseGroup(p, nav, groups[0].members, child, prefix, level),
                ParseGroups(p, nav, groups[1..], child, prefix, level))
  }

  function ParseGroup(p: Paths, nav: Nav, group: seq<Nav>, child: Blocklet, prefix: Prefix, level: nat): Parsed
    decreases child, group, 1
  {
    var list := ParseAll(p, group, child, p.under(prefix, child.mountPoint), level + 1);
    if list.None? || group == [] then None else GroupEntries(nav, child, group, list.value, level)
  }

  // ---------------------------------------------------------------- when parsing fails

  /** The menu leaves no entry: it names a child that is not there; or it stands below the top level
      and only holds menus, or stands for groups of menus, that leave none either. */
  predicate Vanishes(nav: Nav, b: Blocklet, level: nat)
    decreases b, nav, 1
  {
    if nav.child.None? then level > 1 && nav.items != [] && AllVanish(nav.items, b, level + 1)
    else
      var child := FindChild(b.children, nav.child.value);
      child.None? ||
      (var groups := GroupsOf(child.value.navigation);
       groups != [] && forall i :: 0 <= i < |groups| ==> GroupVanishes(groups[i].members, child.value, level))
  }

  predicate AllVanish(navs: seq<Nav>, b: Blocklet, level: nat)
    decreases b, navs, 0
  {
    forall i :: 0 <= i < |navs| ==> Vanishes(navs[i], b, level)
  }

  predicate GroupVanishes(group: seq<Nav>, child: Blocklet, level: nat)
    decreases child, group, 1
  {
    |group| != 1 && level != 1 && AllVanish(group, child, level + 1)
  }

  /** Somewhere below the menu, a child declares just one menu for a section, and that one vanishes. */
  predicate Stuck(nav: Nav, b: Blocklet, level: nat)
    decreases b, nav, 1
  {
    if nav.child.None? then AnyStuck(nav.items, b, level + 1)
    else
      var child := FindChild(b.children, nav.child.value);
      child.Some? &&
      var groups := GroupsOf(child.value.navigation);
      exists i :: 0 <= i < |groups| && GroupStuck(groups[i].members, child.value, level)
  }

  predicate AnyStuck(navs: seq<Nav>, b: Blocklet, level: nat)
    decreases b, navs, 0
  {
    exists i :: 0 <= i < |navs| && Stuck(navs[i], b, level)
  }

  predicate GroupStuck(group: seq<Nav>, child: Blocklet, level: nat)
    decreases child, group, 1
  {
    AnyStuck(group, child, level + 1) || (|group| == 1 && Vanishes(group[0], child, level + 1))
  }

  ghost predicate FailsWhen(parsed: Parsed, stuck: bool, vanishes: bool) {
    (parsed.None? <==> stuck) && (parsed.Some? ==> (parsed.value == [] <==> vanishes))
  }

  lemma HeadOrTail(navs: seq<Nav>, b: Blocklet, level: nat)
    requires navs != []
    ensures AllVanish(navs, b, level) <==> Vanishes(navs[0], b, level) && AllVanish(navs[1..], b, level)
    ensures AnyStuck(navs, b, level) <==> Stuck(navs[0], b, level) || AnyStuck(navs[1..], b, level)
  {
    hide Vanishes, Stuck;
    assert forall i :: 0 < i < |navs| ==> navs[i] == navs[1..][i - 1];
    assert forall i :: 0 <= i < |navs[1..]| ==> navs[1..][i] == navs[i + 1];
  }

  /** Parsing fails exactly when some menu is stuck, and leaves nothing exactly when all vanish. */
  lemma {:induction false} ParseFailsExactlyWhen(p: Paths, navs: seq<Nav>, b: Blocklet, prefix: Prefix, level: nat)
    ensures FailsWhen(ParseAll(p, navs, b, prefix, level), AnyStuck(navs, b, level), AllVanish(navs, b, level))
    decreases b, navs, 0
  {
    if navs != [] {
      ParseOneFails(p, navs[0], b, prefix, level);
      ParseFailsExactlyWhen(p, navs[1..], b, prefix, level);
      HeadOrTail(navs, b, level);
      hide AnyStuck, AllVanish, ParseOne, Stuck, Vanishes;
    }
  }

  lemma {:induction false} ParseOneFails(p: Paths, nav: Nav, b: Blocklet, prefix: Prefix, level: nat)
    ensures FailsWhen(ParseOne(p, nav, b, prefix, level), Stuck(nav, b, level), Vanishes(nav, b, level))
    decreases b, nav, 1
  {
    hide ParseAll, ParseGroups, AnyStuck, AllVanish, GroupStuck, GroupVanishes;
    if nav.child.None? {
      ParseFailsExactlyWhen(p, nav.items, b, prefix, level + 1);
      NoneStuckInNone(b, level + 1);
    } else {
      var child := FindChild(b.children, nav.child.value);
      if child.Some? {
        var navigation := child.value.navigation;
        GroupsAreTheSections(navigation, UNDEFINED);
        ParseGroupsFail(p, nav, GroupsOf(navigation), child.value, prefix, level);
      }
    }
  }

  lemma NoneStuckInNone(b: Blocklet, level: nat)
    ensures !AnyStuck([], b, level) && AllVanish([], b, level)
  {
  }

  ghost predicate AnyGroupStuck(groups: seq<Group>, child: Blocklet, level: nat) {
    exists i :: 0 <= i < |groups| && GroupStuck(groups[i].members, child, level)
  }

  ghost predicate AllGroupsVanish(groups: seq<Group>, child: Blocklet, level: nat) {
    forall i :: 0 <= i < |groups| ==> GroupVanishes(groups[i].members, child, level)
  }

  lemma HeadOrTailGroup(groups: seq<Group>, child: Blocklet, level: nat)
    requires groups != []
    ensures AnyGroupStuck(groups, child, level)
       <==> GroupStuck(groups[0].members, child, level) || AnyGroupStuck(groups[1..], child, level)
    ensures AllGroupsVanish(groups, child, level)
       <==> GroupVanishes(groups[0].members, child, level) && AllGroupsVanish(groups[1..], child, level)
  {
    hide GroupStuck, GroupVanishes;
    assert forall i :: 0 < i < |groups| ==> groups[i] == groups[1..][i - 1];
    assert forall i :: 0 <= i < |groups[1..]| ==> groups[1..][i] == groups[i + 1];
  }

  lemma {:induction false} ParseGroupsFail(p: Paths, nav: Nav, groups: seq<Group>, child: Blocklet, prefix: Prefix,
                                           level: nat)
    requires NoneEmpty(groups)
    ensures FailsWhen(ParseGroups(p, nav, groups, child, prefix, level),
                      AnyGroupStuck(groups, child, level), AllGroupsVanish(groups, child, level))
    decreases child, groups, 2
  {
    if groups != [] {
      assert groups[0].members != [];
      ParseGroupFails(p, nav, groups[0].members, child, prefix, level);
      ParseGroupsFail(p, nav, groups[1..], child, prefix, level);
      HeadOrTailGroup(groups, child, level);
      hide AnyGroupStuck, AllGroupsVanish, ParseGroup, GroupStuck, GroupVanishes;
    }
  }

  lemma {:induction false} ParseGroupFails(p: Paths, nav: Nav, group: seq<Nav>, child: Blocklet, prefix: Prefix,
                                           level: nat)
    requires group != []
    ensures FailsWhen(ParseGroup(p, nav, group, child, prefix, level),
                      GroupStuck(group, child, level), GroupVanishes(group, child, level))
    decreases child, group, 1
  {
    ParseFailsExactlyWhen(p, group, child, p.under(prefix, child.mountPoint), level + 1);
    if |group| == 1 { HeadOrTail(group, child, level + 1); NoneStuckInNone(child, level + 1); }
    hide ParseAll, AnyStuck, AllVanish, Vanishes, Stuck;
  }

  /** A child whose only menu names a component that is not there makes the menu naming it fail. */
  lemma LoneMissingMenuIsStuck(p: Paths, nav: Nav, b: Blocklet, child: Blocklet, only: Nav, prefix: Prefix, level: nat)
    requires nav.child.Some? && FindChild(b.children, nav.child.value) == Some(child)
    requires child.navigation == [only] && only.section.None?
    requires only.child.Some? && FindChild(child.children, only.child.value).None?
    ensures Stuck(nav, b, level) && ParseAll(p, [nav], b, prefix, level).None?
  {
    assert [only][..0] == [] && [UNDEFINED][..0] == [];
    assert AddSections([], only, [UNDEFINED]) == AddTo([], UNDEFINED, only);
    assert GroupsOf([only]) == [Group(UNDEFINED, [only])];
    hide GroupsOf;
    assert GroupStuck(GroupsOf(child.navigation)[0].members, child, level);
    ParseFailsExactlyWhen(p, [nav], b, prefix, level);
    assert [nav][0] == nav;
  }

  // ---------------------------------------------------------------- where all references lead somewhere

  /** Every child named, by these menus or by those of the children they lead to, is there. */
  predicate AllFound(navs: seq<Nav>, b: Blocklet)
    decreases b, navs, 0
  {
    forall i :: 0 <= i < |navs| ==> Found(navs[i], b)
  }

  predicate Found(nav: Nav, b: Blocklet)
    decreases b, nav, 1
  {
    if nav.child.None? then AllFound(nav.items, b)
    else
      var child := FindChild(b.children, nav.child.value);
      child.Some? && AllFound(child.value.navigation, child.value)
  }

  lemma {:induction false} TimesOrigin(nav: Nav, sections: seq<Section>, key: Section, i: nat)
    requires i < |Times(nav, sections, key)|
    ensures Times(nav, sections, key)[i] == Restricted(nav, key)
    decreases |sections|
  {
    var n := |sections| - 1;
    if i < |Times(nav, sections[..n], key)| {
      TimesOrigin(nav, sections[..n], key, i);
    }
  }

  /** What is in a section's list is one of the menus, restricted to the section. */
  lemma {:induction false} SectionOrigin(navs: seq<Nav>, key: Section, i: nat) returns (j: nat)
    requires i < |InSection(navs, key)|
    ensures j < |navs| && InSection(navs, key)[i] == Restricted(navs[j], key)
    decreases |navs|
  {
    var n := |navs| - 1;
    var before := InSection(navs[..n], key);
    if i < |before| {
      j := SectionOrigin(navs[..n], key, i);
    } else {
      j := n;
      TimesOrigin(navs[n], SectionsOf(navs[n]), key, i - |before|);
    }
  }

  lemma MemberOrigin(navs: seq<Nav>, g: nat, i: nat) returns (j: nat)
    requires g < |GroupsOf(navs)| && i < |GroupsOf(navs)[g].members|
    ensures j < |navs| && GroupsOf(navs)[g].members[i] == Restricted(navs[j], GroupsOf(navs)[g].key)
  {
    hide GroupsOf, InSection, Restricted, Members;
    var groups := GroupsOf(navs);
    GroupsAreTheSections(navs, groups[g].key);
    MembersAt(groups, g);
    j := SectionOrigin(navs, groups[g].key, i);
  }

  /** A menu's section does not matter here. */
  lemma RestrictedFound(nav: Nav, key: Section, b: Blocklet)
    ensures Found(Restricted(nav, key), b) <==> Found(nav, b)
  {
  }

  lemma {:induction false} FoundNeverStuck(nav: Nav, b: Blocklet, level: nat)
    requires Found(nav, b)
    ensures !Stuck(nav, b, level) && !Vanishes(nav, b, level)
    decreases b, nav, 1
  {
    hide AllFound, AnyStuck, AllVanish, GroupStuck, GroupVanishes;
    if nav.child.None? {
      AllFoundNeverStuck(nav.items, b, level + 1);
    } else {
      var child := FindChild(b.children, nav.child.value).value;
      var groups := GroupsOf(child.navigation);
      forall i | 0 <= i < |groups|
        ensures !GroupStuck(groups[i].members, child, level) && !GroupVanishes(groups[i].members, child, level)
      {
        GroupNeverStuck(child, i, level);
      }
      assert groups != [] ==> !GroupVanishes(groups[0].members, child, level);
    }
  }

  lemma {:induction false} AllFoundNeverStuck(navs: seq<Nav>, b: Blocklet, level: nat)
    requires AllFound(navs, b)
    ensures !AnyStuck(navs, b, level) && (navs != [] ==> !AllVanish(navs, b, level))
    decreases b, navs, 0
  {
    hide Found, Stuck, Vanishes;
    forall i | 0 <= i < |navs|
      ensures !Stuck(navs[i], b, level) && !Vanishes(navs[i], b, level)
    {
      FoundNeverStuck(navs[i], b, level);
    }
    assert navs != [] ==> !Vanishes(navs[0], b, level);
  }

  lemma {:induction false} GroupNeverStuck(child: Blocklet, g: nat, level: nat)
    requires g < |GroupsOf(child.navigation)| && AllFound(child.navigation, child)
    ensures !GroupStuck(GroupsOf(child.navigation)[g].members, child, level)
    ensures !GroupVanishes(GroupsOf(child.navigation)[g].members, child, level)
    decreases child, GroupsOf(child.navigation)[g].members, 1
  {
    hide Found, Stuck, Vanishes, GroupsOf, Restricted;
    var groups := GroupsOf(child.navigation);
    var members := groups[g].members;
    GroupsAreTheSections(child.navigation, groups[g].key);
    forall i | 0 <= i < |members|
      ensures Found(members[i], child)
    {
      var j := MemberOrigin(child.navigation, g, i);
      assert Found(child.navigation[j], child);
      RestrictedFound(child.navigation[j], groups[g].key, child);
    }
    AllFoundNeverStuck(members, child, level + 1);
    assert members != [];
    assert !AnyStuck(members, child, level + 1) && !AllVanish(members, child, level + 1);
    assert |members| == 1 ==> !Vanishes(members[0], child, level + 1);
  }

  /** Where every child named is there, parsing succeeds and leaves no menu out. */
  lemma {:induction false} ParseSucceeds(p: Paths, navs: seq<Nav>, b: Blocklet, prefix: Prefix, level: nat)
    requires AllFound(navs, b)
    ensures var parsed := ParseAll(p, navs, b, prefix, level); parsed.Some? && |parsed.value| >= |navs|
    decreases |navs|
  {
    if navs != [] {
      var one := ParseOne(p, navs[0], b, prefix, level);
      assert one.Some? && one.value != [] by {
        assert Found(navs[0], b);
        FoundNeverStuck(navs[0], b, level);
        ParseOneFails(p, navs[0], b, prefix, level);
      }
      assert AllFound(navs[1..], b);
      ParseSucceeds(p, navs[1..], b, prefix, level);
      hide AllFound, ParseOne;
    }
  }

  // ---------------------------------------------------------------- where links come from

  /** These menus, or those below them, declare the link. */
  predicate Declares(navs: seq<Nav>, link: Word) {
    exists i :: 0 <= i < |navs| && (navs[i].link == Some(link) || Declares(navs[i].items, link))
  }

  /** The link is one that these menus declare, joined to the prefix; or that a child declares, or
      its mount point, joined to the prefixes on the way to it. */
  ghost predicate ComesFrom(p: Paths, navs: seq<Nav>, b: Blocklet, prefix: Prefix, link: Link)
    decreases b
  {
    || (exists t :: Declares(navs, t) && link == p.resolve(prefix, Declared(t)))
    || (exists i :: 0 <= i < |b.children| &&
          var child := b.children[i];
          || link == p.resolve(prefix, Mounted(child.mountPoint))
          || ComesFrom(p, child.navigation, child, p.under(prefix, child.mountPoint), link))
  }

  ghost predicate AllFrom(p: Paths, navs: seq<Nav>, b: Blocklet, prefix: Prefix, menus: seq<Menu>)
    decreases menus
  {
    forall i :: 0 <= i < |menus| ==>
      && (menus[i].link.Some? ==> ComesFrom(p, navs, b, prefix, menus[i].link.value))
      && AllFrom(p, navs, b, prefix, menus[i].items)
  }

  /** The first menus declare no more than the second. */
  ghost predicate NoMore(navs: seq<Nav>, all: seq<Nav>) {
    forall t :: Declares(navs, t) ==> Declares(all, t)
  }

  lemma FromMore(p: Paths, navs: seq<Nav>, all: seq<Nav>, b: Blocklet, prefix: Prefix, link: Link)
    requires NoMore(navs, all) && ComesFrom(p, navs, b, prefix, link)
    ensures ComesFrom(p, all, b, prefix, link)
  {
  }

  lemma {:induction false} AllFromMore(p: Paths, navs: seq<Nav>, all: seq<Nav>, b: Blocklet, prefix: Prefix,
                                       menus: seq<Menu>)
    requires NoMore(navs, all) && AllFrom(p, navs, b, prefix, menus)
    ensures AllFrom(p, all, b, prefix, menus)
    decreases menus
  {
    hide ComesFrom, NoMore;
    forall i | 0 <= i < |menus|
      ensures menus[i].link.Some? ==> ComesFrom(p, all, b, prefix, menus[i].link.value)
      ensures AllFrom(p, all, b, prefix, menus[i].items)
    {
      if menus[i].link.Some? { FromMore(p, navs, all, b, prefix, menus[i].link.value); }
      AllFromMore(p, navs, all, b, prefix, menus[i].items);
    }
  }

  lemma {:induction false} AllFromChild(p: Paths, navs: seq<Nav>, b: Blocklet, prefix: Prefix, child: Blocklet,
                                        menus: seq<Menu>)
    requires child in b.children
    requires AllFrom(p, child.navigation, child, p.under(prefix, child.mountPoint), menus)
    ensures AllFrom(p, navs, b, prefix, menus)
    decreases menus
  {
    forall i | 0 <= i < |menus|
      ensures menus[i].link.Some? ==> ComesFrom(p, navs, b, prefix, menus[i].link.value)
      ensures AllFrom(p, navs, b, prefix, menus[i].items)
    {
      if menus[i].link.Some? { FromChild(p, navs, b, prefix, child, menus[i].link.value); }
      AllFromChild(p, navs, b, prefix, child, menus[i].items);
    }
  }

  lemma FromChild(p: Paths, navs: seq<Nav>, b: Blocklet, prefix: Prefix, child: Blocklet, link: Link)
    requires child in b.children
    requires || ComesFrom(p, child.navigation, child, p.under(prefix, child.mountPoint), link)
             || link == p.resolve(prefix, Mounted(child.mountPoint))
    ensures ComesFrom(p, navs, b, prefix, link)
  {
    var i :| 0 <= i < |b.children| && b.children[i] == child;
  }

  lemma AllFromConcat(p: Paths, navs: seq<Nav>, b: Blocklet, prefix: Prefix, left: seq<Menu>, right: seq<Menu>)
    requires AllFrom(p, navs, b, prefix, left) && AllFrom(p, navs, b, prefix, right)
    ensures AllFrom(p, navs, b, prefix, left + right)
  {
    hide ComesFrom;
    var menus := left + right;
    assert forall i :: 0 <= i < |left| ==> menus[i] == left[i];
    assert forall i :: |left| <= i < |menus| ==> menus[i] == right[i - |left|];
  }

  lemma AllFromOne(p: Paths, navs: seq<Nav>, b: Blocklet, prefix: Prefix, m: Menu)
    requires m.link.Some? ==> ComesFrom(p, navs, b, prefix, m.link.value)
    requires AllFrom(p, navs, b, prefix, m.items)
    ensures AllFrom(p, navs, b, prefix, [m])
  {
  }

  lemma PartsDeclareNoMore(navs: seq<Nav>)
    requires navs != []
    ensures NoMore([navs[0]], navs) && NoMore(navs[1..], navs)
  {
    forall t | Declares(navs[1..], t)
      ensures Declares(navs, t)
    {
      var i :| 0 <= i < |navs[1..]| && (navs[1..][i].link == Some(t) || Declares(navs[1..][i].items, t));
      assert navs[i + 1] == navs[1..][i];
    }
  }

  lemma ItemsDeclareNoMore(nav: Nav)
    ensures NoMore(nav.items, [nav])
  {
    assert [nav][0] == nav;
  }

  /** A group declares what its menus declare. */
  lemma GroupDeclaresNoMore(navs: seq<Nav>, g: nat)
    requires g < |GroupsOf(navs)|
    ensures NoMore(GroupsOf(navs)[g].members, navs)
  {
    hide GroupsOf;
    var members := GroupsOf(navs)[g].members;
    forall t | Declares(members, t)
      ensures Declares(navs, t)
    {
      var i :| 0 <= i < |members| && (members[i].link == Some(t) || Declares(members[i].items, t));
      var j := MemberOrigin(navs, g, i);
      assert navs[j].link == members[i].link && navs[j].items == members[i].items;
    }
  }

  /** Every link in parsed menus, at any depth, is one that a component on the way down declares, or
      its mount point, joined to the mount points that lead there. */
  lemma {:induction false} LinksComeFrom(p: Paths, navs: seq<Nav>, b: Blocklet, prefix: Prefix, level: nat)
    ensures var parsed := ParseAll(p, navs, b, prefix, level);
            parsed.Some? ==> AllFrom(p, navs, b, prefix, parsed.value)
    decreases b, navs, 0
  {
    if navs != [] {
      OneComesFrom(p, navs[0], b, prefix, level);
      LinksComeFrom(p, navs[1..], b, prefix, level);
      PartsDeclareNoMore(navs);
      var one, rest := ParseOne(p, navs[0], b, prefix, level), ParseAll(p, navs[1..], b, prefix, level);
      if one.Some? && rest.Some? {
        AllFromMore(p, [navs[0]], navs, b, prefix, one.value);
        AllFromMore(p, navs[1..], navs, b, prefix, rest.value);
        AllFromConcat(p, navs, b, prefix, one.value, rest.value);
      }
      hide ComesFrom, AllFrom, NoMore, ParseOne;
    }
  }

  lemma {:induction false} OneComesFrom(p: Paths, nav: Nav, b: Blocklet, prefix: Prefix, level: nat)
    ensures var parsed := ParseOne(p, nav, b, prefix, level);
            parsed.Some? ==> AllFrom(p, [nav], b, prefix, parsed.value)
    decreases b, nav, 1
  {
    hide ParseAll, ParseGroups, AllFrom, NoMore, ComesFrom;
    if nav.child.None? {
      LinksComeFrom(p, nav.items, b, prefix, level + 1);
      ItemsDeclareNoMore(nav);
      var list := ParseAll(p, nav.items, b, prefix, level + 1);
      if list.Some? {
        AllFromMore(p, nav.items, [nav], b, prefix, list.value);
        PlainFrom(p, nav, b, prefix, list.value);
      }
    } else {
      var child := FindChild(b.children, nav.child.value);
      NoneFrom(p, [nav], b, prefix);
      if child.Some? {
        var c := child.value;
        var groups := GroupsOf(c.navigation);
        FromChild(p, [nav], b, prefix, c, p.resolve(prefix, Mounted(c.mountPoint)));
        AllFromOne(p, [nav], b, prefix,
                   ChildEntry(nav, TitleOf(c), None, None, None, Some(p.resolve(prefix, Mounted(c.mountPoint))), []));
        forall g | 0 <= g < |groups|
          ensures NoMore(groups[g].members, c.navigation)
        {
          GroupDeclaresNoMore(c.navigation, g);
        }
        GroupsComeFrom(p, nav, groups, c, b, prefix, level);
      }
    }
  }

  lemma NoneFrom(p: Paths, navs: seq<Nav>, b: Blocklet, prefix: Prefix)
    ensures AllFrom(p, navs, b, prefix, [])
  {
  }

  lemma PlainFrom(p: Paths, nav: Nav, b: Blocklet, prefix: Prefix, items: seq<Menu>)
    requires AllFrom(p, [nav], b, prefix, items)
    ensures AllFrom(p, [nav], b, prefix, [PlainEntry(p, nav, prefix, items)])
  {
    hide AllFrom;
    if nav.link.Some? { assert Declares([nav], nav.link.value) by { assert [nav][0] == nav; } }
    AllFromOne(p, [nav], b, prefix, PlainEntry(p, nav, prefix, items));
  }

  lemma {:induction false} GroupsComeFrom(p: Paths, nav: Nav, groups: seq<Group>, child: Blocklet, b: Blocklet,
                                          prefix: Prefix, level: nat)
    requires child in b.children && forall g :: 0 <= g < |groups| ==> NoMore(groups[g].members, child.navigation)
    ensures var parsed := ParseGroups(p, nav, groups, child, prefix, level);
            parsed.Some? ==> AllFrom(p, [nav], b, prefix, parsed.value)
    decreases child, groups, 2
  {
    hide AllFrom, NoMore, ComesFrom, ParseGroup;
    if groups == [] {
      NoneFrom(p, [nav], b, prefix);
    } else {
      GroupComesFrom(p, nav, groups[0].members, child, b, prefix, level);
      GroupsComeFrom(p, nav, groups[1..], child, b, prefix, level);
      var one, rest := ParseGroup(p, nav, groups[0].members, child, prefix, level),
                       ParseGroups(p, nav, groups[1..], child, prefix, level);
      if one.Some? && rest.Some? { AllFromConcat(p, [nav], b, prefix, one.value, rest.value); }
    }
  }

  lemma {:induction false} GroupComesFrom(p: Paths, nav: Nav, group: seq<Nav>, child: Blocklet, b: Blocklet,
                                          prefix: Prefix, level: nat)
    requires child in b.children && NoMore(group, child.navigation)
    ensures var parsed := ParseGroup(p, nav, group, child, prefix, level);
            parsed.Some? ==> AllFrom(p, [nav], b, prefix, parsed.value)
    decreases child, group, 1
  {
    var under := p.under(prefix, child.mountPoint);
    LinksComeFrom(p, group, child, under, level + 1);
    var list := ParseAll(p, group, child, under, level + 1);
    if list.Some? && group != [] {
      AllFromMore(p, group, child.navigation, child, under, list.value);
      AllFromChild(p, [nav], b, prefix, child, list.value);
      EntriesFrom(p, nav, child, group, list.value, b, prefix, level);
      hide GroupEntries;
    }
    hide AllFrom, ComesFrom, NoMore, ParseAll;
  }

  lemma EntriesFrom(p: Paths, nav: Nav, child: Blocklet, group: seq<Nav>, list: seq<Menu>, b: Blocklet, prefix: Prefix,
                    level: nat)
    requires group != [] && AllFrom(p, [nav], b, prefix, list)
    ensures var parsed := GroupEntries(nav, child, group, list, level);
            parsed.Some? ==> AllFrom(p, [nav], b, prefix, parsed.value)
  {
    var parsed := GroupEntries(nav, child, group, list, level);
    NoneFrom(p, [nav], b, prefix);
    assert list != [] && list[0].link.Some? ==> ComesFrom(p, [nav], b, prefix, list[0].link.value);
    hide AllFrom, ComesFrom;
    if parsed.Some? && |parsed.value| == 1 && parsed.value != list {
      AllFromOne(p, [nav], b, prefix, parsed.value[0]);
      assert parsed.value == [parsed.value[0]];
    }
  }

  // ---------------------------------------------------------------- nothing parsed is marked

  lemma {:induction false} ParsedIsUnmarked(p: Paths, navs: seq<Nav>, b: Blocklet, prefix: Prefix, level: nat)
    ensures var parsed := ParseAll(p, navs, b, prefix, level); parsed.Some? ==> Unmarked(parsed.value)
    decreases b, navs, 0
  {
    if navs != [] {
      OneIsUnmarked(p, navs[0], b, prefix, level);
      ParsedIsUnmarked(p, navs[1..], b, prefix, level);
      var one, rest := ParseOne(p, navs[0], b, prefix, level), ParseAll(p, navs[1..], b, prefix, level);
      if one.Some? && rest.Some? { UnmarkedConcat(one.value, rest.value); }
      hide ParseOne, Unmarked;
    }
  }

  lemma UnmarkedConcat(a: seq<Menu>, b: seq<Menu>)
    requires Unmarked(a) && Unmarked(b)
    ensures Unmarked(a + b)
  {
  }

  lemma {:induction false} OneIsUnmarked(p: Paths, nav: Nav, b: Blocklet, prefix: Prefix, level: nat)
    ensures var parsed := ParseOne(p, nav, b, prefix, level); parsed.Some? ==> Unmarked(parsed.value)
    decreases b, nav, 1
  {
    hide ParseAll, ParseGroups;
    assert Unmarked([]);
    if nav.child.None? {
      ParsedIsUnmarked(p, nav.items, b, prefix, level + 1);
    } else {
      var child := FindChild(b.children, nav.child.value);
      if child.Some? {
        GroupsAreUnmarked(p, nav, GroupsOf(child.value.navigation), child.value, prefix, level);
      }
    }
  }

  lemma {:induction false} GroupsAreUnmarked(p: Paths, nav: Nav, groups: seq<Group>, child: Blocklet, prefix: Prefix,
                                             level: nat)
    ensures var parsed := ParseGroups(p, nav, groups, child, prefix, level); parsed.Some? ==> Unmarked(parsed.value)
    decreases child, groups, 2
  {
    hide ParseAll, ParseGroup;
    assert Unmarked([]);
    if groups != [] {
      GroupIsUnmarked(p, nav, groups[0].members, child, prefix, level);
      GroupsAreUnmarked(p, nav, groups[1..], child, prefix, level);
      var one, rest := ParseGroup(p, nav, groups[0].members, child, prefix, level),
                       ParseGroups(p, nav, groups[1..], child, prefix, level);
      if one.Some? && rest.Some? { UnmarkedConcat(one.value, rest.value); }
    }
  }

  lemma {:induction false} GroupIsUnmarked(p: Paths, nav: Nav, group: seq<Nav>, child: Blocklet, prefix: Prefix,
                                           level: nat)
    ensures var parsed := ParseGroup(p, nav, group, child, prefix, level); parsed.Some? ==> Unmarked(parsed.value)
    decreases child, group, 1
  {
    hide ParseAll;
    assert Unmarked([]);
    ParsedIsUnmarked(p, group, child, p.under(prefix, child.mountPoint), level + 1);
  }

  // ---------------------------------------------------------------- the code

  /** The section's group is made when its first menu comes. */
  method AddItem(before: seq<Group>, sec: Section, item: Nav) returns (groups: seq<Group>)
    ensures groups == AddTo(before, sec, item)
  {
    groups := before;
    var at := Place(groups, sec);
    if at == |groups| {
      groups := groups + [Group(sec, [])];
    }
    assert at == |before| ==> [] + [item] == [item];
    groups := groups[at := Group(sec, groups[at].members + [item])];
  }

  method AddMenu(before: seq<Group>, nav: Nav) returns (groups: seq<Group>)
    ensures groups == AddSections(before, nav, SectionsOf(nav))
  {
    var sections := if nav.section.None? || nav.section.value == [] then [UNDEFINED] else nav.section.value;
    groups := before;
    var j := 0;
    while j < |sections|
      invariant 0 <= j <= |sections| && groups == AddSections(before, nav, sections[..j])
    {
      hide AddTo;
      var sec := sections[j];
      var item := nav;
      if nav.section.Some? {
        item := nav.(section := Some(if sec == UNDEFINED then [] else [sec]));
      }
      groups := AddItem(groups, sec, item);
      assert sections[..j + 1][..j] == sections[..j];
      j := j + 1;
    }
    assert sections[..j] == sections;
  }

  /** `getGroups`. */
  method GetGroups(navs: seq<Nav>) returns (groups: seq<Group>)
    ensures groups == GroupsOf(navs)
  {
    groups := [];
    var i := 0;
    while i < |navs|
      invariant 0 <= i <= |navs| && groups == GroupsOf(navs[..i])
    {
      hide AddSections;
      groups := AddMenu(groups, navs[i]);
      assert navs[..i + 1][..i] == navs[..i];
      i := i + 1;
    }
    assert navs[..i] == navs;
  }

  lemma AppendIsAssociative(a: Parsed, b: Parsed, c: Parsed)
    ensures Append(Append(a, b), c) == Append(a, Append(b, c))
  {
    if a.Some? && b.Some? && c.Some? { ConcatIsAssociative(a.value, b.value, c.value); }
  }

  lemma AppendNothing(a: Parsed)
    ensures Append(a, Some([])) == a && Append(Some([]), a) == a
  {
    if a.Some? { ConcatNothing(a.value); }
  }

  lemma {:induction false} ParseSnoc(p: Paths, navs: seq<Nav>, i: nat, b: Blocklet, prefix: Prefix, level: nat)
    requires i < |navs|
    ensures ParseAll(p, navs[..i + 1], b, prefix, level)
         == Append(ParseAll(p, navs[..i], b, prefix, level), ParseOne(p, navs[i], b, prefix, level))
    decreases i
  {
    var one := ParseOne(p, navs[i], b, prefix, level);
    if i == 0 {
      assert navs[..1][1..] == [] && navs[..0] == [] && navs[..1][0] == navs[0];
      AppendNothing(one);
    } else {
      ParseSnoc(p, navs[1..], i - 1, b, prefix, level);
      assert navs[..i + 1][1..] == navs[1..][..i] && navs[..i][1..] == navs[1..][..i - 1];
      AppendIsAssociative(ParseOne(p, navs[0], b, prefix, level), ParseAll(p, navs[1..][..i - 1], b, prefix, level),
                          one);
    }
    hide ParseOne;
  }

  lemma {:induction false} ParseFailsEarly(p: Paths, navs: seq<Nav>, i: nat, b: Blocklet, prefix: Prefix, level: nat)
    requires i <= |navs| && ParseAll(p, navs[..i], b, prefix, level).None?
    ensures ParseAll(p, navs, b, prefix, level).None?
    decreases |navs| - i
  {
    hide ParseAll, ParseOne;
    if i < |navs| {
      ParseSnoc(p, navs, i, b, prefix, level);
      ParseFailsEarly(p, navs, i + 1, b, prefix, level);
    } else {
      assert navs[..i] == navs;
    }
  }

  lemma {:induction false} GroupsSnoc(p: Paths, nav: Nav, groups: seq<Group>, i: nat, child: Blocklet, prefix: Prefix,
                                      level: nat)
    requires i < |groups|
    ensures ParseGroups(p, nav, groups[..i + 1], child, prefix, level)
         == Append(ParseGroups(p, nav, groups[..i], child, prefix, level),
                   ParseGroup(p, nav, groups[i].members, child, prefix, level))
    decreases i
  {
    var one := ParseGroup(p, nav, groups[i].members, child, prefix, level);
    if i == 0 {
      assert groups[..1][1..] == [] && groups[..0] == [] && groups[..1][0] == groups[0];
      AppendNothing(one);
    } else {
      GroupsSnoc(p, nav, groups[1..], i - 1, child, prefix, level);
      assert groups[..i + 1][1..] == groups[1..][..i] && groups[..i][1..] == groups[1..][..i - 1];
      AppendIsAssociative(ParseGroup(p, nav, groups[0].members, child, prefix, level),
                          ParseGroups(p, nav, groups[1..][..i - 1], child, prefix, level), one);
    }
    hide ParseGroup;
  }

  lemma {:induction false} GroupsFailEarly(p: Paths, nav: Nav, groups: seq<Group>, i: nat, child: Blocklet,
                                           prefix: Prefix, level: nat)
    requires i <= |groups| && ParseGroups(p, nav, groups[..i], child, prefix, level).None?
    ensures ParseGroups(p, nav, groups, child, prefix, level).None?
    decreases |groups| - i
  {
    hide ParseGroups, ParseGroup;
    if i < |groups| {
      GroupsSnoc(p, nav, groups, i, child, prefix, level);
      GroupsFailEarly(p, nav, groups, i + 1, child, prefix, level);
    } else {
      assert groups[..i] == groups;
    }
  }

  /** The loop over the menus. */
  method DoParseNavigation(p: Paths, navs: seq<Nav>, b: Blocklet, prefix: Prefix, level: nat) returns (result: Parsed)
    ensures result == ParseAll(p, navs, b, prefix, level)
    decreases b, navs, 0
  {
    var list: seq<Menu> := [];
    var i := 0;
    while i < |navs|
      invariant 0 <= i <= |navs| && ParseAll(p, navs[..i], b, prefix, level) == Some(list)
    {
      var one := ParseNav(p, navs[i], b, prefix, level);
      ParseSnoc(p, navs, i, b, prefix, level);
      if one.None? {
        ParseFailsEarly(p, navs, i + 1, b, prefix, level);
        return None;
      }
      list := list + one.value;
      i := i + 1;
    }
    assert navs[..i] == navs;
    result := Some(list);
  }

  method ParseNav(p: Paths, nav: Nav, b: Blocklet, prefix: Prefix, level: nat) returns (result: Parsed)
    ensures result == ParseOne(p, nav, b, prefix, level)
    decreases b, nav, 1
  {
    if nav.child.None? {
      result := DoParseNavigation(p, nav.items, b, prefix, level + 1);
      if result.Some? && !(level > 1 && nav.items != []) {
        result := Some([PlainEntry(p, nav, prefix, result.value)]);
      }
      return;
    }
    var child := FindChild(b.children, nav.child.value);
    if child.None? {
      return Some([]);
    }
    var groups := GetGroups(child.value.navigation);
    if groups == [] {
      return Some([ChildEntry(nav, TitleOf(child.value), None, None, None,
                              Some(p.resolve(prefix, Mounted(child.value.mountPoint))), [])]);
    }
    result := Some([]);
    var i := 0;
    while i < |groups|
      invariant 0 <= i <= |groups| && result.Some?
      invariant result == ParseGroups(p, nav, groups[..i], child.value, prefix, level)
    {
      var one := ParseMembers(p, nav, groups[i].members, child.value, prefix, level);
      GroupsSnoc(p, nav, groups, i, child.value, prefix, level);
      if one.None? {
        GroupsFailEarly(p, nav, groups, i + 1, child.value, prefix, level);
        return None;
      }
      result := Some(result.value + one.value);
      i := i + 1;
    }
    assert groups[..i] == groups;
  }

  method ParseMembers(p: Paths, nav: Nav, group: seq<Nav>, child: Blocklet, prefix: Prefix, level: nat)
    returns (result: Parsed)
    ensures result == ParseGroup(p, nav, group, child, prefix, level)
    decreases child, group, 1
  {
    var list := DoParseNavigation(p, group, child, p.under(prefix, child.mountPoint), level + 1);
    result := if list.None? || group == [] then None else GroupEntries(nav, child, group, list.value, level);
  }

  predicate IsBare(m: Menu) {
    m.link.None? && m.items == []
  }

  function DropBare(menus: seq<Menu>): seq<Menu> {
    if menus == [] then []
    else
      var n := |menus| - 1;
      DropBare(menus[..n]) + if IsBare(menus[n]) then [] else [menus[n]]
  }

  lemma BareHasNoKeys(m: Menu)
    requires IsBare(m)
    ensures Keys([m]) == []
  {
    WalkOne(m);
    NoKeys();
  }

  /** Dropping entries with neither a link nor entries below them drops no key. */
  lemma {:induction false} DropBareKeepsKeys(menus: seq<Menu>)
    ensures Keys(DropBare(menus)) == Keys(menus)
    decreases |menus|
  {
    hide Keys, IsBare;
    if menus == [] {
      NoKeys();
    } else {
      var n := |menus| - 1;
      DropBareKeepsKeys(menus[..n]);
      assert menus[..n] + [menus[n]] == menus;
      KeysConcat(menus[..n], [menus[n]]);
      if IsBare(menus[n]) {
        BareHasNoKeys(menus[n]);
        ConcatNothing(DropBare(menus[..n]));
        ConcatNothing(Keys(menus[..n]));
      } else {
        KeysConcat(DropBare(menus[..n]), [menus[n]]);
      }
    }
  }

  lemma {:induction false} DropBareDropsBare(menus: seq<Menu>)
    ensures forall m :: m in DropBare(menus) <==> m in menus && !IsBare(m)
    decreases |menus|
  {
    hide IsBare;
    if menus != [] {
      var n := |menus| - 1;
      DropBareDropsBare(menus[..n]);
      assert menus == menus[..n] + [menus[n]];
    }
  }

  /** `parseNavigation`: fails exactly when a menu is stuck; otherwise no two entries at any depth
      share a link and a section, every key is that of a parsed entry, and every entry at the top
      has a link or entries below it. */
  method ParseNavigation(p: Paths, navs: seq<Nav>, b: Blocklet, prefix: Prefix) returns (result: Parsed)
    ensures result.None? <==> AnyStuck(navs, b, 1)
    ensures result.Some? ==>
      && var parsed := ParseAll(p, navs, b, prefix, 1);
      && parsed.Some?
      && Keys(result.value) == Keys(Unique(parsed.value)) && Distinct(Keys(result.value))
      && forall m :: m in result.value <==> m in Unique(parsed.value) && !IsBare(m)
  {
    hide ParseAll, AnyStuck, AllVanish, Unmarked, MarkAll, FilterAll, Keys, Distinct;
    ParseFailsExactlyWhen(p, navs, b, prefix, 1);
    var parsed := DoParseNavigation(p, navs, b, prefix, 1);
    if parsed.None? {
      return None;
    }
    ParsedIsUnmarked(p, navs, b, prefix, 1);
    var marked, seen := MarkDuplicate(parsed.value, []);
    var menus := FilterDuplicate(marked);
    NoKeyTwice(parsed.value);
    DropBareKeepsKeys(menus);
    DropBareDropsBare(menus);
    var list: seq<Menu> := [];
    var i := 0;
    while i < |menus|
      invariant 0 <= i <= |menus| && list == DropBare(menus[..i])
    {
      assert menus[..i + 1][..i] == menus[..i];
      if menus[i].link.Some? || menus[i].items != [] {
        list := list + [menus[i]];
      }
      i := i + 1;
    }
    assert menus[..i] == menus;
    result := Some(list);
  }
}