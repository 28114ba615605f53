/** Duplicate entries of parsed menus (blocklet/meta parse-navigation, `uniq`): an entry whose link
    and section have occurred before, anywhere in the forest, is marked, and then dropped with
    everything below it. */
module MenuDuplicates {

  import opened Common

  datatype Link = Link(target: string)

  datatype Section = Section(name: string)

  datatype Word = Word(text: string)

  /** What an entry shows, as far as it is there. */
  datatype Body = Body(title: Option<Word>, description: Option<Word>, icon: Option<Word>, role: Option<Word>)

  /** An entry; an empty link is none. */
  datatype Menu = Menu(body: Body, link: Option<Link>, section: seq<Section>, duplicate: bool, items: seq<Menu>)

  /** What must not occur twice. */
  datatype Key = Key(link: Link, section: seq<Section>)

  function KeyOf(m: Menu): seq<Key> {
    if m.link.None? then [] else [Key(m.link.value, m.section)]
  }

  /** All entries in the order in which they are walked: each before those below it. */
  function Walk(menus: seq<Menu>): seq<Menu> {
    if menus == [] then [] else [menus[0]] + Walk(menus[0].items) + Walk(menus[1..])
  }

  function Keys(menus: seq<Menu>): seq<Key> {
    FlatMap(KeyOf, Walk(menus))
  }

  // ---------------------------------------------------------------- what the code does

  predicate IsRepeat(m: Menu, seen: seq<Key>) {
    m.link.Some? && Key(m.link.value, m.section) in seen
  }

  function MarkAll(menus: seq<Menu>, seen: seq<Key>): seq<Menu> {
    if menus == [] then []
    else
      var m := menus[0];
      [m.(duplicate := m.duplicate || IsRepeat(m, seen), items := MarkAll(m.items, seen + KeyOf(m)))]
      + MarkAll(menus[1..], seen + Keys([m]))
  }

  function FilterAll(menus: seq<Menu>): seq<Menu> {
    if menus == [] then []
    else (if menus[0].duplicate then [] else [menus[0].(items := FilterAll(menus[0].items))]) + FilterAll(menus[1..])
  }

  function Unique(menus: seq<Menu>): seq<Menu> {
    FilterAll(MarkAll(menus, []))
  }

  // ---------------------------------------------------------------- what is promised

  /** The number of entries a menu stands for. */
  function Size(m: Menu): nat {
    1 + |Walk(m.items)|
  }

  /** In a walk, the entry at i has no key, or its key has not occurred before. */
  predicate IsFirst(seen: seq<Key>, walk: seq<Menu>, i: nat)
    requires i < |walk|
  {
    !IsRepeat(walk[i], seen + FlatMap(KeyOf, walk[..i]))
  }

  /** In a walk, the entry at j is the one at i or lies above it. */
  predicate Holds(walk: seq<Menu>, j: nat, i: nat)
    requires j < |walk|
  {
    j <= i < j + Size(walk[j])
  }

  /** The entry at i, and all above it, are first occurrences. */
  predicate Survives(seen: seq<Key>, walk: seq<Menu>, i: nat) {
    forall j :: 0 <= j < |walk| && Holds(walk, j, i) ==> IsFirst(seen, walk, j)
  }

  datatype Label = Label(body: Body, link: Option<Link>, section: seq<Section>)

  function LabelOf(m: Menu): Label {
    Label(m.body, m.link, m.section)
  }

  function Labels(walk: seq<Menu>): seq<Label> {
    seq(|walk|, i requires 0 <= i < |walk| => LabelOf(walk[i]))
  }

  /** The labels whose flag is up, in order. */
  function Pick(labels: seq<Label>, flags: seq<bool>): seq<Label>
    requires |labels| == |flags|
  {
    if labels == [] then [] else (if flags[0] then [labels[0]] else []) + Pick(labels[1..], flags[1..])
  }

  function Flags(seen: seq<Key>, walk: seq<Menu>): seq<bool> {
    seq(|walk|, i requires 0 <= i < |walk| => Survives(seen, walk, i))
  }

  // ---------------------------------------------------------------- walks

  lemma WalkOne(m: Menu)
    ensures Walk([m]) == [m] + Walk(m.items) && |Walk([m])| == Size(m)
    ensures Keys([m]) == KeyOf(m) + Keys(m.items)
  {
    assert [m][1..] == [];
    FlatMapConcat(KeyOf, [m], Walk(m.items));
    assert FlatMap(KeyOf, [m]) == KeyOf(m) + FlatMap(KeyOf, []);
  }

  lemma WalkSplit(menus: seq<Menu>)
    requires menus != []
    ensures Walk(menus) == Walk([menus[0]]) + Walk(menus[1..])
    ensures Keys(menus) == Keys([menus[0]]) + Keys(menus[1..])
  {
    WalkOne(menus[0]);
    FlatMapConcat(KeyOf, Walk([menus[0]]), Walk(menus[1..]));
  }

  /** Nothing in the walk reaches beyond its end. */
  ghost predicate Closed(walk: seq<Menu>) {
    forall j :: 0 <= j < |walk| ==> j + Size(walk[j]) <= |walk|
  }

  lemma ClosedParts(m: Menu, inner: seq<Menu>, rest: seq<Menu>)
    requires Closed(inner) && Closed(rest) && inner == Walk(m.items)
    ensures Closed([m] + inner + rest)
  {
    hide Walk;
    var walk := [m] + inner + rest;
    forall j | 0 <= j < |walk|
      ensures j + Size(walk[j]) <= |walk|
    {
      assert 0 < j <= |inner| ==> walk[j] == inner[j - 1];
      assert |inner| < j ==> walk[j] == rest[j - 1 - |inner|];
    }
  }

  lemma {:induction false} WalkIsClosed(menus: seq<Menu>)
    ensures Closed(Walk(menus))
  {
    if menus != [] {
      WalkIsClosed(menus[0].items);
      WalkIsClosed(menus[1..]);
      ClosedParts(menus[0], Walk(menus[0].items), Walk(menus[1..]));
    }
  }

  // ---------------------------------------------------------------- survival, part by part

  lemma FirstRight(seen: seq<Key>, a: seq<Menu>, b: seq<Menu>, j: nat)
    requires j < |b|
    ensures IsFirst(seen, a + b, |a| + j) <==> IsFirst(seen + FlatMap(KeyOf, a), b, j)
  {
    hide FlatMap, IsRepeat;
    TakeAcross(a, b, j);
    FlatMapConcat(KeyOf, a, b[..j]);
    ConcatIsAssociative(seen, FlatMap(KeyOf, a), FlatMap(KeyOf, b[..j]));
  }

  lemma HoldsRight(a: seq<Menu>, b: seq<Menu>, j: nat, i: nat)
    requires j < |b|
    ensures Holds(a + b, |a| + j, |a| + i) <==> Holds(b, j, i)
  {
  }

  lemma HoldsAcross(a: seq<Menu>, b: seq<Menu>, j: nat, i: nat)
    requires Closed(a) && j < |a|
    ensures !Holds(a + b, j, |a| + i)
  {
    hide Size;
    assert (a + b)[j] == a[j];
  }

  /** In the second part of a walk, what came in the first part has only been seen. */
  lemma SurvivesRight(seen: seq<Key>, a: seq<Menu>, b: seq<Menu>, i: nat)
    requires i < |b| && Closed(a)
    ensures Survives(seen, a + b, |a| + i) <==> Survives(seen + FlatMap(KeyOf, a), b, i)
  {
    hide Holds, IsFirst, FlatMap, Closed;
    if Survives(seen, a + b, |a| + i) {
      forall j | 0 <= j < |b| && Holds(b, j, i)
        ensures IsFirst(seen + FlatMap(KeyOf, a), b, j)
      {
        HoldsRight(a, b, j, i);
        FirstRight(seen, a, b, j);
      }
    }
    if Survives(seen + FlatMap(KeyOf, a), b, i) {
      forall j | 0 <= j < |a + b| && Holds(a + b, j, |a| + i)
        ensures IsFirst(seen, a + b, j)
      {
        if j < |a| {
          HoldsAcross(a, b, j, i);
        } else {
          HoldsRight(a, b, j - |a|, i);
          FirstRight(seen, a, b, j - |a|);
        }
      }
    }
  }

  /** The first part of a walk does not depend on what follows. */
  lemma SurvivesLeft(seen: seq<Key>, a: seq<Menu>, b: seq<Menu>, i: nat)
    requires i < |a|
    ensures Survives(seen, a + b, i) <==> Survives(seen, a, i)
  {
    hide Size, FlatMap;
    forall j | 0 <= j < |a|
      ensures Holds(a + b, j, i) <==> Holds(a, j, i)
      ensures IsFirst(seen, a + b, j) <==> IsFirst(seen, a, j)
    {
      assert (a + b)[..j] == a[..j];
    }
    if Survives(seen, a, i) {
      forall j | 0 <= j < |a + b| && Holds(a + b, j, i)
        ensures IsFirst(seen, a + b, j)
      {
        assert j < |a|;
      }
    }
  }

  /** Below an entry, survival takes the entry itself to be a first occurrence. */
  lemma SurvivesBelow(seen: seq<Key>, m: Menu, i: nat)
    requires i < |Walk(m.items)|
    ensures Survives(seen, Walk([m]), 1 + i) <==> !IsRepeat(m, seen) && Survives(seen + KeyOf(m), Walk(m.items), i)
  {
    hide FlatMap, Walk;
    var inner := Walk(m.items);
    var walk := [m] + inner;
    WalkOne(m);
    FirstOfOne(seen, m, inner);
    forall j | 0 <= j < |inner|
      ensures Holds(walk, 1 + j, 1 + i) <==> Holds(inner, j, i)
      ensures IsFirst(seen, walk, 1 + j) <==> IsFirst(seen + KeyOf(m), inner, j)
    {
      FirstRight(seen, [m], inner, j);
      FlatMapOne(m);
    }
    assert Holds(walk, 0, 1 + i);
    if Survives(seen, walk, 1 + i) {
      forall j | 0 <= j < |inner| && Holds(inner, j, i)
        ensures IsFirst(seen + KeyOf(m), inner, j)
      {
        assert Holds(walk, 1 + j, 1 + i);
      }
    }
    if !IsRepeat(m, seen) && Survives(seen + KeyOf(m), inner, i) {
      forall j | 0 <= j < |walk| && Holds(walk, j, 1 + i)
        ensures IsFirst(seen, walk, j)
      {
        assert j > 0 ==> Holds(inner, j - 1, i);
      }
    }
  }

  lemma FlatMapOne(m: Menu)
    ensures FlatMap(KeyOf, [m]) == KeyOf(m)
  {
    assert FlatMap(KeyOf, [m]) == KeyOf(m) + FlatMap(KeyOf, [m][1..]);
  }

  lemma FirstOfOne(seen: seq<Key>, m: Menu, inner: seq<Menu>)
    ensures IsFirst(seen, [m] + inner, 0) <==> !IsRepeat(m, seen)
  {
    assert ([m] + inner)[..0] == [];
    assert seen + [] == seen;
  }

  lemma SurvivesSelf(seen: seq<Key>, m: Menu)
    ensures Survives(seen, Walk([m]), 0) <==> !IsRepeat(m, seen)
  {
    hide FlatMap;
    WalkOne(m);
    FirstOfOne(seen, m, Walk(m.items));
    hide Walk;
    assert Holds(Walk([m]), 0, 0);
  }

  // ---------------------------------------------------------------- what survives

  /** Nothing has been marked yet. */
  predicate Unmarked(menus: seq<Menu>) {
    forall i :: 0 <= i < |menus| ==> !menus[i].duplicate && Unmarked(menus[i].items)
  }

  lemma {:induction false} WalkConcat(a: seq<Menu>, b: seq<Menu>)
    ensures Walk(a + b) == Walk(a) + Walk(b)
  {
    if a == [] {
      assert a + b == b;
    } else {
      HeadTail(a, b);
      WalkConcat(a[1..], b);
      assert (a + b)[1..] == a[1..] + b;
    }
  }

  lemma {:induction false} FilterConcat(a: seq<Menu>, b: seq<Menu>)
    ensures FilterAll(a + b) == FilterAll(a) + FilterAll(b)
  {
    if a == [] {
      assert a + b == b;
    } else {
      TailConcat(a, b);
      FilterConcat(a[1..], b);
    }
  }

  lemma {:induction false} PickConcat(a: seq<Label>, b: seq<Label>, f: seq<bool>, g: seq<bool>)
    requires |a| == |f| && |b| == |g|
    ensures Pick(a + b, f + g) == Pick(a, f) + Pick(b, g)
  {
    if a == [] {
      ConcatNothing(b);
      ConcatNothing(g);
      ConcatNothing(Pick(b, g));
    } else {
      TailConcat(a, b);
      TailConcat(f, g);
      PickConcat(a[1..], b, f[1..], g);
      ConcatIsAssociative(if f[0] then [a[0]] else [], Pick(a[1..], f[1..]), Pick(b, g));
    }
  }

  lemma {:induction false} PickNone(labels: seq<Label>, flags: seq<bool>)
    requires |labels| == |flags| && forall i :: 0 <= i < |flags| ==> !flags[i]
    ensures Pick(labels, flags) == []
  {
    if labels != [] {
      PickNone(labels[1..], flags[1..]);
    }
  }

  lemma LabelsConcat(a: seq<Menu>, b: seq<Menu>)
    ensures Labels(a + b) == Labels(a) + Labels(b)
  {
  }

  lemma FlagsConcat(seen: seq<Key>, a: seq<Menu>, b: seq<Menu>)
    requires Closed(a)
    ensures Flags(seen, a + b) == Flags(seen, a) + Flags(seen + FlatMap(KeyOf, a), b)
  {
    hide Survives, FlatMap, Closed;
    var left, right := Flags(seen, a), Flags(seen + FlatMap(KeyOf, a), b);
    forall i | 0 <= i < |a + b|
      ensures Flags(seen, a + b)[i] == (left + right)[i]
    {
      if i < |a| { SurvivesLeft(seen, a, b, i); } else { SurvivesRight(seen, a, b, i - |a|); }
    }
  }

  /** The entries of one menu that survive. */
  lemma PickOne(seen: seq<Key>, m: Menu)
    ensures Pick(Labels(Walk([m])), Flags(seen, Walk([m])))
         == if IsRepeat(m, seen) then []
            else [LabelOf(m)] + Pick(Labels(Walk(m.items)), Flags(seen + KeyOf(m), Walk(m.items)))
  {
    hide Survives, IsRepeat, FlatMap;
    var walk, inner := Walk([m]), Walk(m.items);
    WalkOne(m);
    hide Walk;
    SurvivesSelf(seen, m);
    forall k | 1 <= k < |walk|
      ensures Survives(seen, walk, k) <==> !IsRepeat(m, seen) && Survives(seen + KeyOf(m), inner, k - 1)
    {
      SurvivesBelow(seen, m, k - 1);
    }
    var flags := Flags(seen, walk);
    LabelsConcat([m], inner);
    assert Labels(walk)[1..] == Labels(inner);
    if IsRepeat(m, seen) {
      PickNone(Labels(walk), flags);
    } else {
      assert flags[1..] == Flags(seen + KeyOf(m), inner);
    }
  }

  /** What is left of one menu. */
  function UniqueOne(m: Menu, seen: seq<Key>): seq<Menu> {
    if IsRepeat(m, seen) then [] else [m.(items := FilterAll(MarkAll(m.items, seen + KeyOf(m))))]
  }

  lemma UniqueHead(menus: seq<Menu>, seen: seq<Key>)
    requires menus != [] && !menus[0].duplicate
    ensures FilterAll(MarkAll(menus, seen))
         == UniqueOne(menus[0], seen) + FilterAll(MarkAll(menus[1..], seen + Keys([menus[0]])))
  {
    hide Keys, IsRepeat;
    var m := menus[0];
    var marked := m.(duplicate := IsRepeat(m, seen), items := MarkAll(m.items, seen + KeyOf(m)));
    FilterConcat([marked], MarkAll(menus[1..], seen + Keys([m])));
    assert [marked][1..] == [];
    assert !IsRepeat(m, seen) ==> marked.(items := FilterAll(marked.items)) == m.(items := FilterAll(marked.items));
  }

  /** An entry survives exactly when it and all entries above it are first occurrences in the order
      of the walk; the survivors keep that order. */
  lemma {:induction false} SurvivorsAre(menus: seq<Menu>, seen: seq<Key>)
    requires Unmarked(menus)
    ensures Labels(Walk(FilterAll(MarkAll(menus, seen)))) == Pick(Labels(Walk(menus)), Flags(seen, Walk(menus)))
    decreases menus
  {
    hide Flags, FilterAll, MarkAll, IsRepeat;
    if menus == [] {
      UniqueNone(seen);
    } else {
      var m, rest := menus[0], menus[1..];
      SurvivorsAre(m.items, seen + KeyOf(m));
      SurvivorsAre(rest, seen + Keys([m]));
      UniqueHead(menus, seen);
      WalkSplit(menus);
      SurvivorsOfOne(m, seen);
      WalkIsClosed([m]);
      SurvivorsJoin(menus, seen, Walk([m]), Walk(rest), UniqueOne(m, seen), FilterAll(MarkAll(rest, seen + Keys([m]))));
    }
  }

  lemma UniqueNone(seen: seq<Key>)
    ensures FilterAll(MarkAll([], seen)) == []
  {
  }

  lemma SurvivorsOfOne(m: Menu, seen: seq<Key>)
    requires Labels(Walk(FilterAll(MarkAll(m.items, seen + KeyOf(m)))))
          == Pick(Labels(Walk(m.items)), Flags(seen + KeyOf(m), Walk(m.items)))
    ensures Labels(Walk(UniqueOne(m, seen))) == Pick(Labels(Walk([m])), Flags(seen, Walk([m])))
  {
    hide Flags, FilterAll, MarkAll, IsRepeat, Pick;
    PickOne(seen, m);
    if !IsRepeat(m, seen) {
      var left := m.(items := FilterAll(MarkAll(m.items, seen + KeyOf(m))));
      WalkOne(left);
      LabelsConcat([left], Walk(left.items));
    }
  }

  lemma SurvivorsJoin(menus: seq<Menu>, seen: seq<Key>, a: seq<Menu>, b: seq<Menu>, left: seq<Menu>, right: seq<Menu>)
    requires Walk(menus) == a + b && Closed(a)
    requires Labels(Walk(left)) == Pick(Labels(a), Flags(seen, a))
    requires Labels(Walk(right)) == Pick(Labels(b), Flags(seen + FlatMap(KeyOf, a), b))
    ensures Labels(Walk(left + right)) == Pick(Labels(Walk(menus)), Flags(seen, Walk(menus)))
  {
    WalkConcat(left, right);
    hide Walk, Pick, Closed, FlatMap;
    LabelsConcat(Walk(left), Walk(right));
    LabelsConcat(a, b);
    FlagsConcat(seen, a, b);
    PickConcat(Labels(a), Labels(b), Flags(seen, a), Flags(seen + FlatMap(KeyOf, a), b));
  }

  // ---------------------------------------------------------------- no key twice

  lemma KeysConcat(a: seq<Menu>, b: seq<Menu>)
    ensures Keys(a + b) == Keys(a) + Keys(b)
  {
    WalkConcat(a, b);
    FlatMapConcat(KeyOf, Walk(a), Walk(b));
  }

  lemma DistinctConcat<T>(a: seq<T>, b: seq<T>)
    requires Distinct(a) && Distinct(b) && forall x :: x in a ==> x !in b
    ensures Distinct(a + b)
  {
    forall i, j | 0 <= i < j < |a + b|
      ensures (a + b)[i] != (a + b)[j]
    {
      if i < |a| && |a| <= j { assert a[i] in a && b[j - |a|] in b; }
    }
  }

  /** What is left shares no key with what was seen before, and has none twice. */
  lemma {:induction false} LeftKeys(menus: seq<Menu>, seen: seq<Key>)
    requires Unmarked(menus)
    ensures var keys := Keys(FilterAll(MarkAll(menus, seen)));
            Distinct(keys) && forall k :: k in keys ==> k !in seen && k in Keys(menus)
    decreases menus
  {
    hide Keys, MarkAll, FilterAll, Distinct, IsRepeat;
    if menus == [] {
      UniqueNone(seen);
      NoKeys();
    } else {
      var m, rest := menus[0], menus[1..];
      LeftKeys(m.items, seen + KeyOf(m));
      LeftKeys(rest, seen + Keys([m]));
      UniqueHead(menus, seen);
      LeftKeysOfOne(m, seen);
      var a, b := UniqueOne(m, seen), FilterAll(MarkAll(rest, seen + Keys([m])));
      hide UniqueOne;
      KeysConcat(a, b);
      WalkSplit(menus);
      DistinctConcat(Keys(a), Keys(b));
    }
  }

  lemma NoKeys()
    ensures Keys([]) == [] && Distinct(Keys([]))
  {
  }

  lemma LeftKeysOfOne(m: Menu, seen: seq<Key>)
    requires var keys := Keys(FilterAll(MarkAll(m.items, seen + KeyOf(m))));
             Distinct(keys) && forall k :: k in keys ==> k !in seen + KeyOf(m) && k in Keys(m.items)
    ensures var keys := Keys(UniqueOne(m, seen));
            Distinct(keys) && forall k :: k in keys ==> k !in seen && k in Keys([m])
  {
    hide Keys, MarkAll, FilterAll;
    WalkOne(m);
    if IsRepeat(m, seen) {
      NoKeys();
    } else {
      WalkOne(m.(items := FilterAll(MarkAll(m.items, seen + KeyOf(m)))));
      DistinctConcat(KeyOf(m), Keys(FilterAll(MarkAll(m.items, seen + KeyOf(m)))));
    }
  }

  /** After `uniq`, no two entries anywhere in the forest share a link and a section. */
  lemma NoKeyTwice(menus: seq<Menu>)
    requires Unmarked(menus)
    ensures Distinct(Keys(Unique(menus)))
  {
    LeftKeys(menus, []);
  }

  // ---------------------------------------------------------------- nothing left to drop

  lemma {:induction false} FilterUnmarked(menus: seq<Menu>)
    requires Unmarked(menus)
    ensures FilterAll(menus) == menus
    decreases menus
  {
    if menus != [] {
      FilterUnmarked(menus[0].items);
      FilterUnmarked(menus[1..]);
    }
  }

  lemma {:induction false} LeftIsUnmarked(menus: seq<Menu>)
    ensures Unmarked(FilterAll(menus))
    decreases menus
  {
    if menus != [] {
      LeftIsUnmarked(menus[0].items);
      LeftIsUnmarked(menus[1..]);
    }
  }

  lemma DistinctParts<T>(a: seq<T>, b: seq<T>)
    requires Distinct(a + b)
    ensures Distinct(a) && Distinct(b) && forall x :: x in a ==> x !in b
  {
    assert forall i :: 0 <= i < |a| ==> (a + b)[i] == a[i];
    assert forall i :: 0 <= i < |b| ==> (a + b)[|a| + i] == b[i];
  }

  lemma {:induction false} MarkNothing(menus: seq<Menu>, seen: seq<Key>)
    requires Unmarked(menus) && Distinct(Keys(menus)) && forall k :: k in Keys(menus) ==> k !in seen
    ensures MarkAll(menus, seen) == menus
    decreases menus
  {
    hide Keys, Distinct;
    if menus != [] {
      var m, rest := menus[0], menus[1..];
      WalkSplit(menus);
      WalkOne(m);
      DistinctParts(Keys([m]), Keys(rest));
      DistinctParts(KeyOf(m), Keys(m.items));
      MarkNothing(m.items, seen + KeyOf(m));
      MarkNothing(rest, seen + Keys([m]));
      assert m.(duplicate := false, items := m.items) == m;
    }
  }

  /** Doing it again changes nothing. */
  lemma UniqueTwice(menus: seq<Menu>)
    requires Unmarked(menus)
    ensures Unique(Unique(menus)) == Unique(menus)
  {
    LeftKeys(menus, []);
    LeftIsUnmarked(MarkAll(menus, []));
    MarkNothing(Unique(menus), []);
    FilterUnmarked(Unique(menus));
  }

  // ---------------------------------------------------------------- what is lost

  lemma {:induction false} InFlatMap(walk: seq<Menu>, k: Key)
    ensures k in FlatMap(KeyOf, walk) <==> exists j :: 0 <= j < |walk| && k in KeyOf(walk[j])
  {
    if walk != [] {
      InFlatMap(walk[1..], k);
      assert walk == [walk[0]] + walk[1..];
      assert forall j :: 0 < j < |walk| ==> walk[j] == walk[1..][j - 1];
      if exists j :: 0 <= j < |walk[1..]| && k in KeyOf(walk[1..][j]) {
        var j :| 0 <= j < |walk[1..]| && k in KeyOf(walk[1..][j]);
        assert k in KeyOf(walk[j + 1]);
      }
    }
  }

  lemma {:induction false} InPick(labels: seq<Label>, flags: seq<bool>, wanted: Label)
    requires |labels| == |flags|
    ensures wanted in Pick(labels, flags) <==> exists j :: 0 <= j < |labels| && flags[j] && labels[j] == wanted
  {
    if labels != [] {
      InPick(labels[1..], flags[1..], wanted);
      assert forall j :: 0 < j < |labels| ==> labels[j] == labels[1..][j - 1] && flags[j] == flags[1..][j - 1];
      if exists j :: 0 <= j < |labels[1..]| && flags[1..][j] && labels[1..][j] == wanted {
        var j :| 0 <= j < |labels[1..]| && flags[1..][j] && labels[1..][j] == wanted;
        assert flags[j + 1] && labels[j + 1] == wanted;
      }
    }
  }

  predicate HasKey(walk: seq<Menu>, i: int, k: Key) {
    0 <= i < |walk| && walk[i].link == Some(k.link) && walk[i].section == k.section
  }

  /** The place at which a key occurs first. */
  predicate FirstWith(walk: seq<Menu>, i: int, k: Key) {
    HasKey(walk, i, k) && forall j :: 0 <= j < i ==> !HasKey(walk, j, k)
  }

  lemma FirstWithIsFirst(walk: seq<Menu>, i: nat, k: Key)
    requires HasKey(walk, i, k)
    ensures IsFirst([], walk, i) <==> FirstWith(walk, i, k)
  {
    InFlatMap(walk[..i], k);
    assert [] + FlatMap(KeyOf, walk[..i]) == FlatMap(KeyOf, walk[..i]);
    hide FlatMap;
    assert forall j :: 0 <= j < i ==> (HasKey(walk, j, k) <==> k in KeyOf(walk[..i][j]));
  }

  /** A key is still there if and only if its first occurrence survives. */
  lemma KeyIsKeptExactlyWhen(menus: seq<Menu>, i: nat, k: Key)
    requires Unmarked(menus) && FirstWith(Walk(menus), i, k)
    ensures k in Keys(Unique(menus)) <==> Survives([], Walk(menus), i)
  {
    hide FlatMap, IsFirst, Walk, FilterAll, MarkAll;
    var walk, left := Walk(menus), Walk(Unique(menus));
    SurvivorsAre(menus, []);
    InFlatMap(left, k);
    if Survives([], walk, i) {
      InPick(Labels(walk), Flags([], walk), LabelOf(walk[i]));
      assert Flags([], walk)[i] && Labels(walk)[i] == LabelOf(walk[i]);
      var j :| 0 <= j < |Labels(left)| && Labels(left)[j] == LabelOf(walk[i]);
      assert k in KeyOf(left[j]);
    }
    if k in Keys(Unique(menus)) {
      var j :| 0 <= j < |left| && k in KeyOf(left[j]);
      InPick(Labels(walk), Flags([], walk), LabelOf(left[j]));
      assert Labels(left)[j] == LabelOf(left[j]);
      var p :| 0 <= p < |walk| && Flags([], walk)[p] && Labels(walk)[p] == LabelOf(left[j]);
      SurvivorIsFirst(walk, p, k);
    }
  }

  lemma SurvivorIsFirst(walk: seq<Menu>, p: nat, k: Key)
    requires HasKey(walk, p, k) && Survives([], walk, p)
    ensures FirstWith(walk, p, k)
  {
    assert Holds(walk, p, p);
    FirstWithIsFirst(walk, p, k);
  }

  /** A first occurrence that lies below a repeat, and is dropped with it. */
  ghost predicate Buried(walk: seq<Menu>, i: int, k: Key) {
    FirstWith(walk, i, k) && !Survives([], walk, i)
  }

  lemma {:induction false} FirstExists(walk: seq<Menu>, i: nat, k: Key) returns (first: nat)
    requires HasKey(walk, i, k)
    ensures FirstWith(walk, first, k)
    decreases i
  {
    if j :| 0 <= j < i && HasKey(walk, j, k) {
      first := FirstExists(walk, j, k);
    } else {
      first := i;
    }
  }

  ghost predicate NothingBuried(menus: seq<Menu>) {
    forall i, k :: !Buried(Walk(menus), i, k)
  }

  ghost predicate NothingLost(menus: seq<Menu>) {
    forall k :: k in Keys(menus) ==> k in Keys(Unique(menus))
  }

  lemma NothingBuriedNothingLost(menus: seq<Menu>)
    requires Unmarked(menus) && NothingBuried(menus)
    ensures NothingLost(menus)
  {
    hide Survives, Unique, Walk;
    var walk := Walk(menus);
    forall k | k in Keys(menus)
      ensures k in Keys(Unique(menus))
    {
      InFlatMap(walk, k);
      var i :| 0 <= i < |walk| && k in KeyOf(walk[i]);
      var first := FirstExists(walk, i, k);
      assert !Buried(walk, first, k);
      KeyIsKeptExactlyWhen(menus, first, k);
    }
  }

  lemma NothingLostNothingBuried(menus: seq<Menu>)
    requires Unmarked(menus) && NothingLost(menus)
    ensures NothingBuried(menus)
  {
    hide Survives, Unique, Walk;
    var walk := Walk(menus);
    forall i: int, k: Key
      ensures !Buried(walk, i, k)
    {
      if FirstWith(walk, i, k) {
        InFlatMap(walk, k);
        assert k in KeyOf(walk[i]);
        KeyIsKeptExactlyWhen(menus, i, k);
      }
    }
  }

  /** Every link that is in the menus is still there once, if and only if no first occurrence lies
      below a repeat. */
  lemma NothingIsLostExactlyWhen(menus: seq<Menu>)
    requires Unmarked(menus)
    ensures NothingLost(menus) <==> NothingBuried(menus)
  {
    hide NothingLost, NothingBuried;
    if NothingBuried(menus) {
      NothingBuriedNothingLost(menus);
    }
    if NothingLost(menus) {
      NothingLostNothingBuried(menus);
    }
  }

  /** A repeat takes the first entry of another link with it; the later entry with that link is a
      repeat itself and dropped as well, so the link is lost. */
  lemma LinkIsLost(x: Key, y: Key, t: Body)
    requires x != y
    ensures var a, c := Leaf(x, t), Leaf(y, t);
            var menus := [a, a.(items := [c]), c];
            y in Keys(menus) && y !in Keys(Unique(menus))
  {
    var a, c := Leaf(x, t), Leaf(y, t);
    var b := a.(items := [c]);
    var menus := [a, b, c];
    WalkOfThree(a, b, c);
    assert Unmarked([]) && Unmarked([c]) && Unmarked(menus);
    var walk := Walk(menus);
    hide Walk, FlatMap;
    assert FirstWith(walk, 2, y);
    FirstWithIsFirst(walk, 1, x);
    assert HasKey(walk, 0, x);
    assert Holds(walk, 1, 2) by { WalkOne(c); }
    KeyIsKeptExactlyWhen(menus, 2, y);
    InFlatMap(walk, y);
    assert y in KeyOf(walk[2]);
  }

  function Leaf(k: Key, t: Body): Menu {
    Menu(t, Some(k.link), k.section, false, [])
  }

  lemma WalkOfThree(a: Menu, b: Menu, c: Menu)
    requires a.items == [] && c.items == [] && b.items == [c]
    ensures Walk([a, b, c]) == [a, b, c, c]
  {
    WalkOne(a);
    WalkOne(b);
    WalkOne(c);
    WalkConcat([a], [b, c]);
    WalkConcat([b], [c]);
    assert Walk(a.items) == [] && Walk(b.items) == [c];
    hide Walk;
    assert [a] + [b, c] == [a, b, c] && [b] + [c] == [b, c];
  }

  // ---------------------------------------------------------------- the code

  /** `markDuplicate`, with the list of what has been seen shared by all levels. */
  method MarkDuplicate(menus: seq<Menu>, compares: seq<Key>) returns (marked: seq<Menu>, seen: seq<Key>)
    ensures marked == MarkAll(menus, compares)
    ensures seen == compares + Keys(menus)
    decreases menus
  {
    marked, seen := [], compares;
    MarkedSoFar(menus, compares, 0);
    var i := 0;
    while i < |menus|
      invariant 0 <= i <= |menus|
      invariant marked == MarkAll(menus[..i], compares) && seen == compares + Keys(menus[..i])
    {
      hide MarkAll, Keys;
      var item := menus[i];
      MarkSnoc(menus[..i], item, compares, seen);
      assert menus[..i + 1] == menus[..i] + [item];
      var repeat := item.link.Some? && Key(item.link.value, item.section) in seen;
      if item.link.Some? {
        seen := seen + [Key(item.link.value, item.section)];
      }
      var items;
      items, seen := MarkDuplicate(item.items, seen);
      marked := marked + [item.(duplicate := item.duplicate || repeat, items := items)];
      i := i + 1;
    }
    assert menus[..i] == menus;
  }

  lemma MarkedSoFar(menus: seq<Menu>, compares: seq<Key>, i: nat)
    requires i == 0
    ensures MarkAll(menus[..0], compares) == [] && compares + Keys(menus[..0]) == compares
  {
  }

  lemma {:induction false} MarkConcat(a: seq<Menu>, b: seq<Menu>, seen: seq<Key>)
    ensures MarkAll(a + b, seen) == MarkAll(a, seen) + MarkAll(b, seen + Keys(a))
    decreases |a|
  {
    hide Keys;
    if a == [] {
      NoKeys();
      assert a + b == b && seen + [] == seen;
    } else {
      TailConcat(a, b);
      MarkConcat(a[1..], b, seen + Keys([a[0]]));
      WalkSplit(a);
      assert seen + Keys([a[0]]) + Keys(a[1..]) == seen + (Keys([a[0]]) + Keys(a[1..]));
    }
  }

  lemma MarkSnoc(menus: seq<Menu>, m: Menu, compares: seq<Key>, seen: seq<Key>)
    requires seen == compares + Keys(menus)
    ensures MarkAll(menus + [m], compares)
         == MarkAll(menus, compares)
            + [m.(duplicate := m.duplicate || IsRepeat(m, seen), items := MarkAll(m.items, seen + KeyOf(m)))]
    ensures compares + Keys(menus + [m]) == seen + KeyOf(m) + Keys(m.items)
    ensures KeyOf(m) == (if m.link.Some? then [Key(m.link.value, m.section)] else [])
    ensures seen + [] == seen
  {
    MarkConcat(menus, [m], compares);
    KeysConcat(menus, [m]);
    WalkOne(m);
    MarkOne(m, seen);
    hide Keys, MarkAll;
    assert compares + (Keys(menus) + (KeyOf(m) + Keys(m.items))) == seen + KeyOf(m) + Keys(m.items);
  }

  lemma MarkOne(m: Menu, seen: seq<Key>)
    ensures MarkAll([m], seen)
         == [m.(duplicate := m.duplicate || IsRepeat(m, seen), items := MarkAll(m.items, seen + KeyOf(m)))]
  {
    assert [m][1..] == [];
    assert MarkAll([m][1..], seen + Keys([m])) == [];
  }

  /** `filterDuplicate`. */
  method FilterDuplicate(menus: seq<Menu>) returns (res: seq<Menu>)
    ensures res == FilterAll(menus)
    decreases menus
  {
    res := [];
    var i := 0;
    while i < |menus|
      invariant 0 <= i <= |menus| && res == FilterAll(menus[..i])
    {
      FilterConcat(menus[..i], [menus[i]]);
      assert [menus[i]][1..] == [];
      assert menus[..i + 1] == menus[..i] + [menus[i]];
      if !menus[i].duplicate {
        var items := FilterDuplicate(menus[i].items);
        res := res + [menus[i].(items := items)];
      }
      i := i + 1;
    }
    assert menus[..i] == menus;
  }

  /** `uniq`: no key twice, and exactly the entries that survive, in their order. */
  method Uniq(menus: seq<Menu>) returns (res: seq<Menu>)
    requires Unmarked(menus)
    ensures Distinct(Keys(res))
    ensures Labels(Walk(res)) == Pick(Labels(Walk(menus)), Flags([], Walk(menus)))
  {
    var marked, seen := MarkDuplicate(menus, []);
    res := FilterDuplicate(marked);
    NoKeyTwice(menus);
    SurvivorsAre(menus, []);
  }
}