/** Compacting a navigation tree to two levels: everything below a second-level item is lifted next
    to it, and an item that serves only as a container is taken out again. */
module CompactNavigation {

  import opened Common
  import opened Navigation

  const DEFAULT_SECTION := Section(["header"])

  /** How the link of a parent and of an item combine. */
  type LinkJoin = (Option<Link>, Option<Link>) -> Option<Link>

  /** Component names joined by dots, empty ones left out. */
  function JoinNames(a: string, b: string): string {
    if a == "" then b else if b == "" then a else a + "." + b
  }

  function OrElse<T>(a: Option<T>, b: Option<T>): Option<T> {
    if a.Some? then a else b
  }

  /** What a lifted item takes from the item it was lifted out of. */
  function Inherit(join: LinkJoin, item: Node, parent: Node): Node {
    var first := item.mark.None?;
    item.(mark := if first then parent.id else item.mark,
          link := if first && parent.component == "" then join(parent.link, item.link) else item.link,
          section := OrElse(item.section, OrElse(parent.section, Some(DEFAULT_SECTION))),
          visible := OrElse(item.visible, parent.visible),
          role := OrElse(item.role, parent.role),
          component := JoinNames(parent.component, item.component))
  }

  /** At depth 2 no first-level item is transformed. */
  function Lifting(join: LinkJoin): Transform {
    (item: Node, parent: Option<Node>) => if parent.Some? then Inherit(join, item, parent.value) else item
  }

  // ---------------------------------------------------------------- taking the containers out

  function Unmark(node: Node): Node {
    node.(mark := None)
  }

  /** The position `findIndex` stops at; the length when there is none. */
  function FindId(list: seq<Node>, id: Id): (i: nat)
    ensures i <= |list|
    ensures i < |list| ==> list[i].id == Some(id)
    ensures forall k :: 0 <= k < i ==> list[k].id != Some(id)
  {
    if list == [] || list[0].id == Some(id) then 0 else 1 + FindId(list[1..], id)
  }

  /** The visit of position k: a marked item takes the item it names out of the list. */
  function PruneStep(list: seq<Node>, k: nat): seq<Node>
    requires k < |list|
  {
    var current := list[k];
    if current.mark.None? then list
    else
      var i := FindId(list, current.mark.value);
      var unmarked := list[k := Unmark(current)];
      if i < |list| then unmarked[..i] + unmarked[i + 1..] else unmarked
  }

  /** The visits of positions k - 1, ..., 0, skipping those past the end of the shrunken list. */
  function PruneFrom(list: seq<Node>, k: nat): seq<Node>
    decreases k
  {
    if k == 0 then list
    else PruneFrom(if k - 1 < |list| then PruneStep(list, k - 1) else list, k - 1)
  }

  function Prune(list: seq<Node>): seq<Node> {
    PruneFrom(list, |list|)
  }

  function CompactRoot(join: LinkJoin, root: Node): Node {
    var walked := Walked(root, 1, 2, Lifting(join));
    walked.(items := Prune(walked.items))
  }

  /** `reduceRight` over the very array it splices. */
  method PruneContainers(original: seq<Node>) returns (items: seq<Node>)
    ensures items == Prune(original)
  {
    hide PruneFrom;
    items := original;
    var k := |items|;
    while k > 0
      invariant 0 <= k
      invariant PruneFrom(items, k) == Prune(original)
    {
      k := k - 1;
      if k < |items| {
        PruneOnce(items, k);
        items := VisitPosition(items, k);
      } else {
        PruneSkips(items, k);
      }
    }
    PruneNone(items);
  }

  /** The callback at one position. */
  method VisitPosition(original: seq<Node>, k: nat) returns (items: seq<Node>)
    requires k < |original|
    ensures items == PruneStep(original, k)
  {
    hide FindId;
    items := original;
    var current := items[k];
    if current.mark.Some? {
      var index := FindId(items, current.mark.value);
      items := items[k := Unmark(current)];
      if index < |items| {
        items := items[..index] + items[index + 1..];
      }
    }
  }

  lemma PruneOnce(list: seq<Node>, k: nat)
    requires k < |list|
    ensures PruneFrom(list, k + 1) == PruneFrom(PruneStep(list, k), k)
  {
  }

  lemma PruneSkips(list: seq<Node>, k: nat)
    requires k >= |list|
    ensures PruneFrom(list, k + 1) == PruneFrom(list, k)
  {
  }

  lemma PruneNone(list: seq<Node>)
    ensures PruneFrom(list, 0) == list
  {
  }

  method CompactNavigation(navigation: seq<Node>, join: LinkJoin) returns (resData: seq<Node>)
    ensures |resData| == |navigation|
    ensures forall i :: 0 <= i < |navigation| ==> resData[i] == CompactRoot(join, navigation[i])
  {
    resData := FlattenNavigation(navigation, 2, Lifting(join));
    RootsApart(navigation, 2, Lifting(join));
    for i := 0 to |resData|
      invariant |resData| == |navigation|
      invariant forall k :: 0 <= k < i ==> resData[k] == CompactRoot(join, navigation[k])
      invariant forall k :: i <= k < |resData| ==> resData[k] == Walked(navigation[k], 1, 2, Lifting(join))
    {
      var item := resData[i];
      if |item.items| > 0 {
        var items := PruneContainers(item.items);
        item := item.(items := items);
      }
      resData := resData[i := item];
    }
  }

  lemma {:induction false} RootsApart(list: seq<Node>, depth: int, transform: Transform)
    requires depth > 1
    ensures var flat := Flatten(list, depth, transform);
            && |flat| == |list|
            && forall i :: 0 <= i < |list| ==> flat[i] == Walked(list[i], 1, depth, transform)
  {
    if list != [] {
      RootsApart(list[1..], depth, transform);
      assert Flatten(list, depth, transform)
             == FlattenRoot(list[0], depth, transform) + Flatten(list[1..], depth, transform);
    }
  }

  // ---------------------------------------------------------------- which items survive

  /** An item survives when none of its own children does; in particular every leaf does. */
  ghost predicate Survives(node: Node) {
    forall i :: 0 <= i < |node.items| ==> !Survives(node.items[i])
  }

  /** The survivors of a list in which marks name earlier items: an item stays when no item that
      names it stays. */
  ghost predicate Settles(list: seq<Node>, flags: seq<bool>) {
    && |flags| == |list|
    && forall i :: 0 <= i < |list| ==> (flags[i] <==> !Named(list, flags, 0, i))
  }

  /** Some surviving item from k on names the item at i. */
  ghost predicate Named(list: seq<Node>, flags: seq<bool>, k: nat, i: nat)
    requires |flags| == |list| && i < |list|
  {
    exists j :: k <= j < |list| && flags[j] && list[j].mark == list[i].id
  }

  /** Every item has an id of its own, and a mark names an earlier item. */
  ghost predicate Traceable(list: seq<Node>) {
    && (forall i :: 0 <= i < |list| ==> list[i].id.Some?)
    && (forall i, j :: 0 <= i < j < |list| ==> list[i].id != list[j].id)
    && (forall j :: 0 <= j < |list| && list[j].mark.Some? ==> exists i :: 0 <= i < j && list[i].id == list[j].mark)
  }

  /** The survivors from k on, their marks deleted. */
  ghost function Survivors(list: seq<Node>, flags: seq<bool>, k: nat): seq<Node>
    requires |flags| == |list| && k <= |list|
    decreases |list| - k
  {
    if k == |list| then []
    else (if flags[k] then [Unmark(list[k])] else []) + Survivors(list, flags, k + 1)
  }

  /** The first n items that no survivor from k on names. */
  ghost function Front(list: seq<Node>, flags: seq<bool>, k: nat, n: nat): seq<Node>
    requires |flags| == |list| && n <= |list|
  {
    if n == 0 then []
    else Front(list, flags, k, n - 1) + if Named(list, flags, k, n - 1) then [] else [list[n - 1]]
  }

  lemma {:induction false} FrontOrigin(list: seq<Node>, flags: seq<bool>, k: nat, n: nat, t: nat) returns (x: nat)
    requires |flags| == |list| && n <= |list| && t < |Front(list, flags, k, n)|
    ensures x < n && !Named(list, flags, k, x) && Front(list, flags, k, n)[t] == list[x]
  {
    if t < |Front(list, flags, k, n - 1)| {
      x := FrontOrigin(list, flags, k, n - 1, t);
    } else {
      x := n - 1;
    }
  }

  lemma {:induction false} SurvivorOrigin(list: seq<Node>, flags: seq<bool>, k: nat, t: nat) returns (x: nat)
    requires |flags| == |list| && k <= |list| && t < |Survivors(list, flags, k)|
    ensures k <= x < |list| && Survivors(list, flags, k)[t] == Unmark(list[x])
    decreases |list| - k
  {
    if flags[k] && t == 0 {
      x := k;
    } else {
      x := SurvivorOrigin(list, flags, k + 1, if flags[k] then t - 1 else t);
    }
  }

  lemma NamedStep(list: seq<Node>, flags: seq<bool>, k: nat, i: nat)
    requires |flags| == |list| && 0 < k <= |list| && i < |list|
    ensures Named(list, flags, k - 1, i)
            <==> Named(list, flags, k, i) || (flags[k - 1] && list[k - 1].mark == list[i].id)
  {
    if j :| k - 1 <= j < |list| && flags[j] && list[j].mark == list[i].id { assert j == k - 1 || k <= j; }
  }

  /** Nothing leaves the front when k - 1 names none of its items that are still there. */
  lemma {:induction false} FrontSame(list: seq<Node>, flags: seq<bool>, k: nat, n: nat)
    requires |flags| == |list| && 0 < k <= |list| && n <= |list|
    requires forall i :: 0 <= i < n && flags[k - 1] && list[k - 1].mark == list[i].id ==> Named(list, flags, k, i)
    ensures Front(list, flags, k - 1, n) == Front(list, flags, k, n)
  {
    if n > 0 {
      NamedStep(list, flags, k, n - 1);
      FrontSame(list, flags, k, n - 1);
    }
  }

  /** When k - 1 survives and names p, the front loses exactly p. */
  lemma {:induction false} FrontLoses(list: seq<Node>, flags: seq<bool>, k: nat, n: nat, p: nat)
    requires Traceable(list) && |flags| == |list| && 0 < k <= |list| && p < n < k
    requires flags[k - 1] && list[k - 1].mark == list[p].id && !Named(list, flags, k, p)
    ensures var front, t := Front(list, flags, k, n), |Front(list, flags, k, p)|;
            && t < |front| && front[t] == list[p]
            && Front(list, flags, k - 1, n) == front[..t] + front[t + 1..]
  {
    NamedStep(list, flags, k, n - 1);
    if p == n - 1 {
      FrontSame(list, flags, k, p);
    } else {
      FrontLoses(list, flags, k, n - 1, p);
      var before, t := Front(list, flags, k, n - 1), |Front(list, flags, k, p)|;
      var last := if Named(list, flags, k, n - 1) then [] else [list[n - 1]];
      assert list[n - 1].id != list[p].id;
      assert Front(list, flags, k - 1, n) == (before[..t] + before[t + 1..]) + last;
      assert (before + last)[..t] == before[..t] && (before + last)[t + 1..] == before[t + 1..] + last;
    }
  }

  /** The state before the visits of what is left in front of k: the front, then the survivors. */
  ghost function Halfway(list: seq<Node>, flags: seq<bool>, k: nat): seq<Node>
    requires |flags| == |list| && k <= |list|
  {
    Front(list, flags, k, k) + Survivors(list, flags, k)
  }

  lemma {:induction false} FindIdIs(list: seq<Node>, id: Id, i: nat)
    requires i <= |list| && (i < |list| ==> list[i].id == Some(id))
    requires forall k :: 0 <= k < i ==> list[k].id != Some(id)
    ensures FindId(list, id) == i
  {
  }

  /** Where the item that k - 1 names is found: in the front when it is still there. */
  lemma FindsNamed(list: seq<Node>, flags: seq<bool>, k: nat, p: nat)
    requires Traceable(list) && Settles(list, flags) && p < k - 1 < |list| && list[p].id.Some?
    ensures FindId(Halfway(list, flags, k), list[p].id.value)
            == if Named(list, flags, k, p) then |Halfway(list, flags, k)| else |Front(list, flags, k, p)|
  {
    var half := Halfway(list, flags, k);
    var front := Front(list, flags, k, k);
    var at := if Named(list, flags, k, p) then |half| else |Front(list, flags, k, p)|;
    forall t | 0 <= t < at
      ensures t < |half| && half[t].id != list[p].id
    {
      if Named(list, flags, k, p) {
        if t < |front| {
          var x := FrontOrigin(list, flags, k, k, t);
        } else {
          var x := SurvivorOrigin(list, flags, k, t - |front|);
        }
      } else {
        FrontPrefix(list, flags, k, p, k);
        var x := FrontOrigin(list, flags, k, p, t);
      }
    }
    if !Named(list, flags, k, p) {
      FrontPrefix(list, flags, k, p, k);
    }
    FindIdIs(half, list[p].id.value, at);
  }

  lemma {:induction false} FrontPrefix(list: seq<Node>, flags: seq<bool>, k: nat, p: nat, n: nat)
    requires |flags| == |list| && p <= n <= |list|
    ensures var some, all := Front(list, flags, k, p), Front(list, flags, k, n);
            && |some| <= |all| && all[..|some|] == some
            && (p < n && !Named(list, flags, k, p) ==> |some| < |all| && all[|some|] == list[p])
  {
    if p < n { FrontPrefix(list, flags, k, p, n - 1); }
  }

  /** A survivor at k - 1 is the last item of the front. */
  lemma HalfwaySplit(list: seq<Node>, flags: seq<bool>, k: nat)
    requires Settles(list, flags) && 0 < k <= |list| && flags[k - 1]
    ensures Front(list, flags, k, k) == Front(list, flags, k, k - 1) + [list[k - 1]]
    ensures Survivors(list, flags, k - 1) == [Unmark(list[k - 1])] + Survivors(list, flags, k)
  {
    NamedWidens(list, flags, k, k - 1);
  }

  lemma NamedWidens(list: seq<Node>, flags: seq<bool>, k: nat, i: nat)
    requires |flags| == |list| && i < |list|
    ensures Named(list, flags, k, i) ==> Named(list, flags, 0, i)
  {
    if j :| k <= j < |list| && flags[j] && list[j].mark == list[i].id { assert 0 <= j; }
  }

  /** Visiting the last item of the front turns one halfway state into the next. */
  lemma VisitOne(list: seq<Node>, flags: seq<bool>, k: nat)
    requires Traceable(list) && Settles(list, flags) && 0 < k <= |list| && flags[k - 1]
    ensures PruneFrom(Halfway(list, flags, k), |Front(list, flags, k, k)|)
            == PruneFrom(Halfway(list, flags, k - 1), |Front(list, flags, k - 1, k - 1)|)
  {
    HalfwaySplit(list, flags, k);
    var current := list[k - 1];
    if current.mark.None? {
      VisitUnmarked(list, flags, k);
    } else {
      var p :| 0 <= p < k - 1 && list[p].id == current.mark;
      FindsNamed(list, flags, k, p);
      if Named(list, flags, k, p) {
        FrontKeepsAfterDrop(list, flags, k, p);
        VisitTooLate(list, flags, k, p);
      } else {
        VisitMarked(list, flags, k, p);
      }
    }
  }

  lemma VisitUnmarked(list: seq<Node>, flags: seq<bool>, k: nat)
    requires Traceable(list) && |flags| == |list| && 0 < k <= |list| && list[k - 1].mark.None?
    requires Front(list, flags, k, k) == Front(list, flags, k, k - 1) + [list[k - 1]]
    requires Survivors(list, flags, k - 1) == [Unmark(list[k - 1])] + Survivors(list, flags, k)
    ensures PruneFrom(Halfway(list, flags, k), |Front(list, flags, k, k)|)
            == PruneFrom(Halfway(list, flags, k - 1), |Front(list, flags, k - 1, k - 1)|)
  {
    hide PruneFrom;
    FrontSame(list, flags, k, k - 1);
    var half, n := Halfway(list, flags, k), |Front(list, flags, k, k - 1)|;
    hide Front, Survivors, Named;
    assert half[n] == list[k - 1];
    PruneOnce(half, n);
    assert PruneStep(half, n) == half;
    assert half == Halfway(list, flags, k - 1);
  }

  lemma FrontKeepsAfterDrop(list: seq<Node>, flags: seq<bool>, k: nat, p: nat)
    requires Traceable(list) && |flags| == |list| && p < k - 1 < |list|
    requires list[k - 1].mark == list[p].id && Named(list, flags, k, p)
    ensures Front(list, flags, k - 1, k - 1) == Front(list, flags, k, k - 1)
  {
    FrontSame(list, flags, k, k - 1);
  }

  /** The container named was taken out before. */
  lemma VisitTooLate(list: seq<Node>, flags: seq<bool>, k: nat, p: nat)
    requires |flags| == |list| && p < k - 1 < |list| && list[p].id.Some?
    requires list[k - 1].mark == list[p].id
    requires Front(list, flags, k - 1, k - 1) == Front(list, flags, k, k - 1)
    requires Front(list, flags, k, k) == Front(list, flags, k, k - 1) + [list[k - 1]]
    requires Survivors(list, flags, k - 1) == [Unmark(list[k - 1])] + Survivors(list, flags, k)
    requires FindId(Halfway(list, flags, k), list[p].id.value) == |Halfway(list, flags, k)|
    ensures PruneFrom(Halfway(list, flags, k), |Front(list, flags, k, k)|)
            == PruneFrom(Halfway(list, flags, k - 1), |Front(list, flags, k - 1, k - 1)|)
  {
    hide PruneFrom, FindId;
    var half, front := Halfway(list, flags, k), Front(list, flags, k, k - 1);
    var n := |front|;
    hide Front, Survivors, Named;
    assert half[n] == list[k - 1];
    PruneOnce(half, n);
    assert half == front + [list[k - 1]] + Survivors(list, flags, k);
    assert Halfway(list, flags, k - 1) == front + ([Unmark(list[k - 1])] + Survivors(list, flags, k));
    assert half[n := Unmark(list[k - 1])] == Halfway(list, flags, k - 1);
    assert PruneStep(half, n) == half[n := Unmark(list[k - 1])];
  }

  /** The container named is taken out, and the visiting item is visited once more. */
  lemma VisitMarked(list: seq<Node>, flags: seq<bool>, k: nat, p: nat)
    requires Traceable(list) && |flags| == |list| && p < k - 1 < |list| && list[p].id.Some?
    requires flags[k - 1] && list[k - 1].mark == list[p].id && !Named(list, flags, k, p)
    requires Front(list, flags, k, k) == Front(list, flags, k, k - 1) + [list[k - 1]]
    requires Survivors(list, flags, k - 1) == [Unmark(list[k - 1])] + Survivors(list, flags, k)
    requires FindId(Halfway(list, flags, k), list[p].id.value) == |Front(list, flags, k, p)|
    ensures PruneFrom(Halfway(list, flags, k), |Front(list, flags, k, k)|)
            == PruneFrom(Halfway(list, flags, k - 1), |Front(list, flags, k - 1, k - 1)|)
  {
    hide PruneFrom, FindId;
    FrontLoses(list, flags, k, k - 1, p);
    var half, front := Halfway(list, flags, k), Front(list, flags, k, k - 1);
    var n, t := |front|, |Front(list, flags, k, p)|;
    var next := Halfway(list, flags, k - 1);
    hide Front, Survivors, Named;
    SpliceOut(front, list[k - 1], Survivors(list, flags, k), t);
    assert half == front + [list[k - 1]] + Survivors(list, flags, k);
    assert next == (front[..t] + front[t + 1..]) + ([Unmark(list[k - 1])] + Survivors(list, flags, k));
    PruneOnce(half, n);
    assert PruneStep(half, n) == next;
    PruneOnce(next, n - 1);
    assert next[n - 1] == Unmark(list[k - 1]);
    assert PruneStep(next, n - 1) == next;
  }

  lemma SpliceOut(front: seq<Node>, current: Node, rest: seq<Node>, t: nat)
    requires t < |front|
    ensures var unmarked := (front + [current] + rest)[|front| := Unmark(current)];
            unmarked[..t] + unmarked[t + 1..] == (front[..t] + front[t + 1..]) + ([Unmark(current)] + rest)
  {
  }

  lemma HalfwayDone(list: seq<Node>, flags: seq<bool>)
    requires |flags| == |list|
    ensures PruneFrom(Halfway(list, flags, 0), |Front(list, flags, 0, 0)|) == Survivors(list, flags, 0)
  {
    PruneNone(Survivors(list, flags, 0));
    assert [] + Survivors(list, flags, 0) == Survivors(list, flags, 0);
  }

  lemma {:induction false} PruneSettles(list: seq<Node>, flags: seq<bool>, k: nat)
    requires Traceable(list) && Settles(list, flags) && k <= |list|
    ensures PruneFrom(Halfway(list, flags, k), |Front(list, flags, k, k)|) == Survivors(list, flags, 0)
  {
    hide PruneFrom, Front, Survivors, Halfway, Named;
    if k == 0 {
      HalfwayDone(list, flags);
    } else {
      PruneSettles(list, flags, k - 1);
      if flags[k - 1] {
        VisitOne(list, flags, k);
      } else {
        NamedLater(list, flags, k);
        SkipDropped(list, flags, k);
      }
    }
  }

  /** An item that does not survive is gone before its position is reached. */
  lemma SkipDropped(list: seq<Node>, flags: seq<bool>, k: nat)
    requires |flags| == |list| && 0 < k <= |list| && !flags[k - 1] && Named(list, flags, k, k - 1)
    ensures Halfway(list, flags, k) == Halfway(list, flags, k - 1)
    ensures Front(list, flags, k, k) == Front(list, flags, k - 1, k - 1)
  {
    FrontSame(list, flags, k, k - 1);
    hide Named;
    assert Front(list, flags, k, k) == Front(list, flags, k, k - 1) + [];
    assert Survivors(list, flags, k - 1) == [] + Survivors(list, flags, k);
  }

  /** Whatever names the item at k - 1 comes after it. */
  lemma NamedLater(list: seq<Node>, flags: seq<bool>, k: nat)
    requires Traceable(list) && Settles(list, flags) && 0 < k <= |list| && !flags[k - 1]
    ensures Named(list, flags, k, k - 1)
  {
    assert Named(list, flags, 0, k - 1);
    var j :| 0 <= j < |list| && flags[j] && list[j].mark == list[k - 1].id;
    var i :| 0 <= i < j && list[i].id == list[j].mark;
    assert i == k - 1;
  }

  lemma {:induction false} FrontOfAll(list: seq<Node>, flags: seq<bool>, n: nat)
    requires |flags| == |list| && n <= |list|
    ensures Front(list, flags, |list|, n) == list[..n]
  {
    if n > 0 {
      FrontOfAll(list, flags, n - 1);
      assert list[..n] == list[..n - 1] + [list[n - 1]];
    }
  }

  /** Although the list shrinks while it is walked, the containers taken out are exactly the items
      that some survivor names. */
  lemma PruneKeepsSurvivors(list: seq<Node>, flags: seq<bool>)
    requires Traceable(list) && Settles(list, flags)
    ensures Prune(list) == Survivors(list, flags, 0)
  {
    PruneSettles(list, flags, |list|);
    FrontOfAll(list, flags, |list|);
    assert list[..|list|] == list && list + [] == list;
  }

  // ---------------------------------------------------------------- from lists back to trees

  /** What taking containers out looks at. */
  datatype Tag = Tag(id: Option<Id>, mark: Option<Id>)

  /** The tags of a lifted forest: each item is marked with the id of the item above it. */
  ghost function TagsOf(mark: Option<Id>, items: seq<Node>): seq<Tag>
    decreases items, 0, 1
  {
    TopTags(mark, items) + DeeperTags(items, |items|)
  }

  ghost function TopTags(mark: Option<Id>, items: seq<Node>): seq<Tag> {
    seq(|items|, i requires 0 <= i < |items| => Tag(items[i].id, mark))
  }

  ghost function DeeperTags(items: seq<Node>, m: nat): seq<Tag>
    requires m <= |items|
    decreases items, 0, 0, m
  {
    if m == 0 then [] else DeeperTags(items, m - 1) + TagsOf(items[m - 1].id, items[m - 1].items)
  }

  /** Which items of a lifted forest survive, in the same order. */
  ghost function FlagsOf(items: seq<Node>): seq<bool>
    decreases items, 0, 1
  {
    TopFlags(items) + DeeperFlags(items, |items|)
  }

  ghost function TopFlags(items: seq<Node>): seq<bool> {
    seq(|items|, i requires 0 <= i < |items| => Survives(items[i]))
  }

  ghost function DeeperFlags(items: seq<Node>, m: nat): seq<bool>
    requires m <= |items|
    decreases items, 0, 0, m
  {
    if m == 0 then [] else DeeperFlags(items, m - 1) + FlagsOf(items[m - 1].items)
  }

  /** Every item has an id and none is marked yet. */
  ghost predicate Plain(items: seq<Node>)
    decreases items
  {
    forall i :: 0 <= i < |items| ==> items[i].id.Some? && items[i].mark.None? && Plain(items[i].items)
  }

  ghost predicate DistinctIds(tags: seq<Tag>) {
    forall i, j :: 0 <= i < j < |tags| ==> tags[i].id != tags[j].id
  }

  ghost predicate HasId(tags: seq<Tag>, id: Option<Id>) {
    exists i :: 0 <= i < |tags| && tags[i].id == id
  }

  /** Some surviving item names this id. */
  ghost predicate NamedIn(tags: seq<Tag>, flags: seq<bool>, id: Option<Id>)
    requires |tags| == |flags|
  {
    exists j :: 0 <= j < |tags| && flags[j] && tags[j].mark == id
  }

  lemma HasIdConcat(a: seq<Tag>, b: seq<Tag>, id: Option<Id>)
    ensures HasId(a + b, id) <==> HasId(a, id) || HasId(b, id)
  {
    var c := a + b;
    if i :| 0 <= i < |a| && a[i].id == id { assert c[i] == a[i]; }
    if i :| 0 <= i < |b| && b[i].id == id { assert c[|a| + i] == b[i]; }
    if i :| 0 <= i < |c| && c[i].id == id { assert c[i] == if i < |a| then a[i] else b[i - |a|]; }
  }

  lemma NamedInConcat(a: seq<Tag>, aFlags: seq<bool>, b: seq<Tag>, bFlags: seq<bool>, id: Option<Id>)
    requires |a| == |aFlags| && |b| == |bFlags|
    ensures NamedIn(a + b, aFlags + bFlags, id) <==> NamedIn(a, aFlags, id) || NamedIn(b, bFlags, id)
  {
    var c, flags := a + b, aFlags + bFlags;
    if i :| 0 <= i < |a| && aFlags[i] && a[i].mark == id { assert c[i] == a[i] && flags[i]; }
    if i :| 0 <= i < |b| && bFlags[i] && b[i].mark == id { assert c[|a| + i] == b[i] && flags[|a| + i]; }
    if i :| 0 <= i < |c| && flags[i] && c[i].mark == id {
      if i < |a| { assert a[i] == c[i] && aFlags[i]; } else { assert b[i - |a|] == c[i] && bFlags[i - |a|]; }
    }
  }

  lemma DistinctConcat(a: seq<Tag>, b: seq<Tag>)
    requires DistinctIds(a + b)
    ensures DistinctIds(a) && DistinctIds(b)
    ensures forall i, j :: 0 <= i < |a| && 0 <= j < |b| ==> a[i].id != b[j].id
  {
    var c := a + b;
    assert forall i :: 0 <= i < |a| ==> c[i] == a[i];
    assert forall i :: 0 <= i < |b| ==> c[|a| + i] == b[i];
    forall i, j | 0 <= i < |a| && 0 <= j < |b|
      ensures a[i].id != b[j].id
    {
      assert c[i].id != c[|a| + j].id;
    }
    forall i, j | 0 <= i < j < |b|
      ensures b[i].id != b[j].id
    {
      assert c[|a| + i].id != c[|a| + j].id;
    }
  }

  lemma {:induction false} TagLengths(mark: Option<Id>, items: seq<Node>)
    ensures |TagsOf(mark, items)| == |FlagsOf(items)|
    decreases items, |items| + 1
  {
    DeeperLengths(items, |items|);
  }

  lemma {:induction false} DeeperLengths(items: seq<Node>, m: nat)
    requires m <= |items|
    ensures |DeeperTags(items, m)| == |DeeperFlags(items, m)|
    decreases items, m
  {
    if m > 0 {
      DeeperLengths(items, m - 1);
      TagLengths(items[m - 1].id, items[m - 1].items);
    }
  }

  /** The block of item r is part of the deeper tags. */
  ghost function Block(items: seq<Node>, r: nat): seq<Tag>
    requires r < |items|
  {
    TagsOf(items[r].id, items[r].items)
  }

  ghost predicate BlockNames(items: seq<Node>, r: nat, id: Option<Id>)
    requires r < |items|
  {
    TagLengths(items[r].id, items[r].items);
    NamedIn(Block(items, r), FlagsOf(items[r].items), id)
  }

  lemma {:induction false} DeeperNamed(items: seq<Node>, m: nat, id: Option<Id>)
    requires m <= |items|
    ensures |DeeperTags(items, m)| == |DeeperFlags(items, m)|
    ensures NamedIn(DeeperTags(items, m), DeeperFlags(items, m), id)
            <==> exists r :: 0 <= r < m && BlockNames(items, r, id)
  {
    DeeperLengths(items, m);
    if m > 0 {
      DeeperNamed(items, m - 1, id);
      TagLengths(items[m - 1].id, items[m - 1].items);
      NamedInConcat(DeeperTags(items, m - 1), DeeperFlags(items, m - 1), Block(items, m - 1),
                    FlagsOf(items[m - 1].items), id);
      assert NamedIn(DeeperTags(items, m), DeeperFlags(items, m), id)
             <==> NamedIn(DeeperTags(items, m - 1), DeeperFlags(items, m - 1), id) || BlockNames(items, m - 1, id);
    }
  }

  lemma {:induction false} DeeperHasId(items: seq<Node>, m: nat, id: Option<Id>)
    requires m <= |items|
    ensures HasId(DeeperTags(items, m), id) <==> exists r :: 0 <= r < m && HasId(Block(items, r), id)
  {
    if m > 0 {
      DeeperHasId(items, m - 1, id);
      HasIdConcat(DeeperTags(items, m - 1), Block(items, m - 1), id);
    }
  }

  /** Marks name items of the block, or the item above it. */
  lemma {:induction false} MarksStayInside(mark: Option<Id>, items: seq<Node>, id: Option<Id>)
    requires id != mark && !HasId(TagsOf(mark, items), id)
    ensures |TagsOf(mark, items)| == |FlagsOf(items)| && !NamedIn(TagsOf(mark, items), FlagsOf(items), id)
    decreases items
  {
    TagLengths(mark, items);
    HasIdConcat(TopTags(mark, items), DeeperTags(items, |items|), id);
    DeeperHasId(items, |items|, id);
    DeeperNamed(items, |items|, id);
    forall r | 0 <= r < |items|
      ensures !BlockNames(items, r, id)
    {
      assert TopTags(mark, items)[r].id == items[r].id;
      assert !HasId(Block(items, r), id);
      MarksStayInside(items[r].id, items[r].items, id);
    }
    NamedInConcat(TopTags(mark, items), TopFlags(items), DeeperTags(items, |items|), DeeperFlags(items, |items|), id);
  }

  /** The item above a block is named by a survivor exactly when one of its children survives. */
  lemma NamedByChildren(mark: Option<Id>, items: seq<Node>)
    requires !HasId(TagsOf(mark, items), mark)
    ensures |TagsOf(mark, items)| == |FlagsOf(items)|
    ensures NamedIn(TagsOf(mark, items), FlagsOf(items), mark) <==> exists i :: 0 <= i < |items| && Survives(items[i])
  {
    TagLengths(mark, items);
    HasIdConcat(TopTags(mark, items), DeeperTags(items, |items|), mark);
    DeeperHasId(items, |items|, mark);
    DeeperNamed(items, |items|, mark);
    forall r | 0 <= r < |items|
      ensures !BlockNames(items, r, mark)
    {
      assert TopTags(mark, items)[r].id == items[r].id;
      assert !HasId(Block(items, r), mark);
      MarksStayInside(items[r].id, items[r].items, mark);
    }
    NamedInConcat(TopTags(mark, items), TopFlags(items), DeeperTags(items, |items|), DeeperFlags(items, |items|), mark);
    if i :| 0 <= i < |items| && Survives(items[i]) {
      assert TopFlags(items)[i] && TopTags(mark, items)[i].mark == mark;
    }
  }

  /** Distinct ids are distinct within each block, between blocks, and from the top items. */
  lemma {:induction false} BlocksApart(items: seq<Node>, m: nat)
    requires m <= |items| && DistinctIds(DeeperTags(items, m))
    ensures forall r :: 0 <= r < m ==> DistinctIds(Block(items, r))
    ensures forall r, s, id :: 0 <= r < s < m && HasId(Block(items, r), id) ==> !HasId(Block(items, s), id)
  {
    if m > 0 {
      var before, last := DeeperTags(items, m - 1), Block(items, m - 1);
      DistinctConcat(before, last);
      BlocksApart(items, m - 1);
      forall r, id | 0 <= r < m - 1 && HasId(Block(items, r), id)
        ensures !HasId(last, id)
      {
        DeeperHasId(items, m - 1, id);
        var i :| 0 <= i < |before| && before[i].id == id;
      }
    }
  }

  ghost predicate Settled(tags: seq<Tag>, flags: seq<bool>) {
    && |tags| == |flags|
    && forall i :: 0 <= i < |tags| ==> (flags[i] <==> !NamedIn(tags, flags, tags[i].id))
  }

  /** In a lifted forest with distinct ids, an item survives exactly when no survivor names it. */
  lemma {:induction false} ForestSettles(mark: Option<Id>, items: seq<Node>)
    requires DistinctIds(TagsOf(mark, items)) && !HasId(TagsOf(mark, items), mark)
    ensures Settled(TagsOf(mark, items), FlagsOf(items))
    decreases items
  {
    TagLengths(mark, items);
    DeeperLengths(items, |items|);
    var top, deeper := TopTags(mark, items), DeeperTags(items, |items|);
    DistinctConcat(top, deeper);
    BlocksApart(items, |items|);
    forall i | 0 <= i < |top|
      ensures Survives(items[i]) <==> !NamedIn(TagsOf(mark, items), FlagsOf(items), top[i].id)
    {
      TopSettles(mark, items, i);
    }
    forall r, i | 0 <= r < |items| && 0 <= i < |Block(items, r)|
      ensures |FlagsOf(items[r].items)| == |Block(items, r)|
      ensures FlagsOf(items[r].items)[i] <==> !NamedIn(TagsOf(mark, items), FlagsOf(items), Block(items, r)[i].id)
    {
      ForestSettlesBlock(mark, items, r);
      ForestSettles(items[r].id, items[r].items);
      InnerSettles(mark, items, r, Block(items, r)[i].id);
    }
    forall i | 0 <= i < |deeper|
      ensures DeeperFlags(items, |items|)[i] <==> !NamedIn(TagsOf(mark, items), FlagsOf(items), deeper[i].id)
    {
      var r, j := InBlock(items, |items|, i);
    }
  }

  /** A deeper position lies in one of the blocks. */
  lemma {:induction false} InBlock(items: seq<Node>, m: nat, i: nat) returns (r: nat, j: nat)
    requires m <= |items| && i < |DeeperTags(items, m)|
    ensures |DeeperTags(items, m)| == |DeeperFlags(items, m)|
    ensures r < m && j < |Block(items, r)| == |FlagsOf(items[r].items)|
    ensures DeeperTags(items, m)[i] == Block(items, r)[j] && DeeperFlags(items, m)[i] == FlagsOf(items[r].items)[j]
  {
    DeeperLengths(items, m);
    DeeperLengths(items, m - 1);
    TagLengths(items[m - 1].id, items[m - 1].items);
    if i < |DeeperTags(items, m - 1)| {
      r, j := InBlock(items, m - 1, i);
    } else {
      r, j := m - 1, i - |DeeperTags(items, m - 1)|;
    }
  }

  /** What the blocks need to settle on their own. */
  lemma ForestSettlesBlock(mark: Option<Id>, items: seq<Node>, r: nat)
    requires r < |items|
    requires DistinctIds(TagsOf(mark, items)) && !HasId(TagsOf(mark, items), mark)
    ensures DistinctIds(Block(items, r)) && !HasId(Block(items, r), items[r].id) && !HasId(Block(items, r), mark)
  {
    var top, deeper := TopTags(mark, items), DeeperTags(items, |items|);
    DistinctConcat(top, deeper);
    BlocksApart(items, |items|);
    HasIdConcat(top, deeper, mark);
    DeeperHasId(items, |items|, mark);
    DeeperHasId(items, |items|, items[r].id);
    assert top[r].id == items[r].id;
  }

  /** Only the marks of its own block name an item inside that block. */
  lemma InnerSettles(mark: Option<Id>, items: seq<Node>, r: nat, id: Option<Id>)
    requires r < |items| && HasId(Block(items, r), id)
    requires DistinctIds(TagsOf(mark, items)) && !HasId(TagsOf(mark, items), mark)
    ensures |TagsOf(mark, items)| == |FlagsOf(items)|
    ensures NamedIn(TagsOf(mark, items), FlagsOf(items), id) <==> BlockNames(items, r, id)
  {
    TagLengths(mark, items);
    var top, deeper := TopTags(mark, items), DeeperTags(items, |items|);
    DistinctConcat(top, deeper);
    BlocksApart(items, |items|);
    DeeperNamed(items, |items|, id);
    NamedInConcat(top, TopFlags(items), deeper, DeeperFlags(items, |items|), id);
    HasIdConcat(top, deeper, mark);
    DeeperHasId(items, |items|, id);
    DeeperHasId(items, |items|, mark);
    assert id != mark;
    forall s | 0 <= s < |items| && s != r
      ensures !BlockNames(items, s, id)
    {
      assert top[s].id == items[s].id;
      assert !HasId(Block(items, s), id);
      MarksStayInside(items[s].id, items[s].items, id);
    }
  }

  /** A top item is named exactly by its own children. */
  lemma TopSettles(mark: Option<Id>, items: seq<Node>, r: nat)
    requires r < |items|
    requires DistinctIds(TagsOf(mark, items)) && !HasId(TagsOf(mark, items), mark)
    ensures |TagsOf(mark, items)| == |FlagsOf(items)|
    ensures NamedIn(TagsOf(mark, items), FlagsOf(items), items[r].id) <==> !Survives(items[r])
  {
    TagLengths(mark, items);
    var id := items[r].id;
    var top, deeper := TopTags(mark, items), DeeperTags(items, |items|);
    DistinctConcat(top, deeper);
    DeeperNamed(items, |items|, id);
    NamedInConcat(top, TopFlags(items), deeper, DeeperFlags(items, |items|), id);
    HasIdConcat(top, deeper, mark);
    DeeperHasId(items, |items|, id);
    assert top[r].id == id;
    assert id != mark;
    ForestSettlesBlock(mark, items, r);
    NamedByChildren(id, items[r].items);
    assert BlockNames(items, r, id) <==> !Survives(items[r]);
    forall s | 0 <= s < |items| && s != r
      ensures !BlockNames(items, s, id)
    {
      assert top[s].id == items[s].id;
      assert !HasId(Block(items, s), id);
      MarksStayInside(items[s].id, items[s].items, id);
    }
  }

  // ---------------------------------------------------------------- what compacting returns

  ghost predicate TagsMatch(list: seq<Node>, tags: seq<Tag>) {
    |list| == |tags| && forall i :: 0 <= i < |list| ==> list[i].id == tags[i].id && list[i].mark == tags[i].mark
  }

  /** Marks are set once, by the item directly above. */
  ghost function Stamp(tags: seq<Tag>, id: Option<Id>): seq<Tag> {
    seq(|tags|, i requires 0 <= i < |tags| => if tags[i].mark.None? then Tag(tags[i].id, id) else tags[i])
  }

  lemma {:induction false} DeeperMarked(items: seq<Node>, m: nat)
    requires m <= |items| && Plain(items)
    ensures forall i :: 0 <= i < |DeeperTags(items, m)| ==> DeeperTags(items, m)[i].mark.Some?
    ensures forall i :: 0 <= i < |DeeperTags(items, m)| ==> DeeperTags(items, m)[i].id.Some?
    decreases items, m
  {
    if m > 0 {
      DeeperMarked(items, m - 1);
      DeeperMarked(items[m - 1].items, |items[m - 1].items|);
      var before, last := DeeperTags(items, m - 1), items[m - 1];
      var top, deeper := TopTags(last.id, last.items), DeeperTags(last.items, |last.items|);
      assert DeeperTags(items, m) == before + (top + deeper);
      hide DeeperTags;
    }
  }

  lemma StampForest(items: seq<Node>, id: Option<Id>)
    requires Plain(items) && id.Some?
    ensures Stamp(TagsOf(None, items), id) == TagsOf(id, items)
  {
    DeeperMarked(items, |items|);
    var tags := TagsOf(None, items);
    forall i | 0 <= i < |tags|
      ensures Stamp(tags, id)[i] == TagsOf(id, items)[i]
    {
      if i >= |items| { assert tags[i] == DeeperTags(items, |items|)[i - |items|]; }
    }
  }

  lemma LiftStamps(join: LinkJoin, list: seq<Node>, tags: seq<Tag>, parent: Node)
    requires TagsMatch(list, tags) && parent.id.Some?
    ensures TagsMatch(TransformAll(list, Some(parent), Lifting(join)), Stamp(tags, parent.id))
  {
  }

  lemma TagsMatchConcat(a: seq<Node>, aTags: seq<Tag>, b: seq<Node>, bTags: seq<Tag>)
    requires TagsMatch(a, aTags) && TagsMatch(b, bTags)
    ensures TagsMatch(a + b, aTags + bTags)
  {
  }

  lemma {:induction false} WalkMarks(join: LinkJoin, items: seq<Node>, level: nat, m: nat)
    requires level >= 2 && m <= |items| && Plain(items)
    ensures TagsMatch(Kept(items[..m], level, 2, Lifting(join)), TopTags(None, items)[..m])
    ensures TagsMatch(Lifted(items[..m], level, 2, Lifting(join)), DeeperTags(items, m))
    decreases items, m
  {
    hide TagsOf, TopTags, TagsMatch, Walked, Kept, Lifted, LiftedFrom, Strip;
    if m == 0 {
      WalkMarksNothing(join, items, level);
    } else {
      var before, last := items[..m - 1], items[m - 1];
      WalkMarks(join, items, level, m - 1);
      assert items[..m] == before + [last];
      KeptSnoc(before, last, level, 2, Lifting(join));
      LiftedSnoc(before, last, level, 2, Lifting(join));
      var walked := Walked(last, level, 2, Lifting(join));
      WalkedMarks(join, last, level);
      WalkedMark(join, last, level);
      TopTagsOne(items, m - 1);
      TagsMatchConcat(Kept(before, level, 2, Lifting(join)), TopTags(None, items)[..m - 1],
                      [Strip(walked)], [Tag(last.id, None)]);
      TagsMatchConcat(Lifted(before, level, 2, Lifting(join)), DeeperTags(items, m - 1),
                      LiftedFrom(walked, level, 2, Lifting(join)), TagsOf(last.id, last.items));
    }
  }

  lemma WalkMarksNothing(join: LinkJoin, items: seq<Node>, level: nat)
    ensures TagsMatch(Kept(items[..0], level, 2, Lifting(join)), TopTags(None, items)[..0])
    ensures TagsMatch(Lifted(items[..0], level, 2, Lifting(join)), DeeperTags(items, 0))
  {
  }

  lemma WalkedMark(join: LinkJoin, node: Node, level: nat)
    requires level >= 2 && node.mark.None?
    ensures TagsMatch([Strip(Walked(node, level, 2, Lifting(join)))], [Tag(node.id, None)])
  {
  }

  lemma TopTagsOne(items: seq<Node>, m: nat)
    requires m < |items|
    ensures |TopTags(None, items)| == |items|
    ensures TopTags(None, items)[..m + 1] == TopTags(None, items)[..m] + [Tag(items[m].id, None)]
  {
  }

  /** What one item lifts out carries the tags of its block. */
  lemma {:induction false} WalkedMarks(join: LinkJoin, node: Node, level: nat)
    requires level >= 2 && Plain(node.items) && node.id.Some?
    ensures TagsMatch(LiftedFrom(Walked(node, level, 2, Lifting(join)), level, 2, Lifting(join)),
                      TagsOf(node.id, node.items))
    decreases node.items, |node.items| + 1
  {
    var items := node.items;
    var n := |items|;
    WalkMarks(join, items, level + 1, n);
    assert items[..n] == items && TopTags(None, items)[..n] == TopTags(None, items);
    var walked := Walked(node, level, 2, Lifting(join));
    TagsMatchConcat(Kept(items, level + 1, 2, Lifting(join)), TopTags(None, items),
                    Lifted(items, level + 1, 2, Lifting(join)), DeeperTags(items, n));
    assert walked.items == WalkedItems(items, level + 1, 2, Lifting(join));
    LiftStamps(join, walked.items, TagsOf(None, items), Strip(walked));
    StampForest(items, node.id);
  }

  /** All that was below a first-level item, side by side. */
  function LiftedTree(join: LinkJoin, root: Node): seq<Node> {
    WalkedItems(root.items, 2, 2, Lifting(join))
  }

  lemma LiftedTreeTags(join: LinkJoin, root: Node)
    requires Plain(root.items)
    ensures TagsMatch(LiftedTree(join, root), TagsOf(None, root.items))
  {
    var items := root.items;
    var n := |items|;
    WalkMarks(join, items, 2, n);
    assert items[..n] == items && TopTags(None, items)[..n] == TopTags(None, items);
    TagsMatchConcat(Kept(items, 2, 2, Lifting(join)), TopTags(None, items), Lifted(items, 2, 2, Lifting(join)),
                    DeeperTags(items, n));
  }

  lemma {:induction false} MarksEarlier(mark: Option<Id>, items: seq<Node>, j: nat)
    requires j < |TagsOf(mark, items)|
    ensures var tags := TagsOf(mark, items);
            tags[j].mark == mark || exists i :: 0 <= i < j && tags[i].id == tags[j].mark
    decreases items, |items| + 1
  {
    var tags := TagsOf(mark, items);
    if j >= |items| {
      DeeperMarksEarlier(items, |items|, j - |items|);
      var top, deeper := TopTags(mark, items), DeeperTags(items, |items|);
      assert tags[j] == deeper[j - |items|];
      if r :| 0 <= r < |items| && items[r].id == tags[j].mark {
        assert tags[r] == top[r];
      } else {
        var i :| 0 <= i < j - |items| && deeper[i].id == tags[j].mark;
        assert tags[i + |items|] == deeper[i];
      }
    }
  }

  lemma {:induction false} DeeperMarksEarlier(items: seq<Node>, m: nat, j: nat)
    requires m <= |items| && j < |DeeperTags(items, m)|
    ensures var deeper := DeeperTags(items, m);
            || (exists r :: 0 <= r < |items| && items[r].id == deeper[j].mark)
            || (exists i :: 0 <= i < j && deeper[i].id == deeper[j].mark)
    decreases items, m
  {
    hide TagsOf, FlagsOf;
    var before := DeeperTags(items, m - 1);
    var deeper := DeeperTags(items, m);
    if j < |before| {
      DeeperMarksEarlier(items, m - 1, j);
      assert forall i :: 0 <= i <= j ==> deeper[i] == before[i];
    } else {
      var last := items[m - 1];
      MarksEarlier(last.id, last.items, j - |before|);
      var block := TagsOf(last.id, last.items);
      assert deeper == before + block;
      assert forall i :: 0 <= i < |block| ==> deeper[|before| + i] == block[i];
      if block[j - |before|].mark != last.id {
        var i :| 0 <= i < j - |before| && block[i].id == block[j - |before|].mark;
        assert deeper[|before| + i].id == deeper[j].mark;
      }
    }
  }

  lemma TreeIsTraceable(list: seq<Node>, items: seq<Node>)
    requires Plain(items) && TagsMatch(list, TagsOf(None, items)) && DistinctIds(TagsOf(None, items))
    ensures Traceable(list)
  {
    var tags := TagsOf(None, items);
    DeeperMarked(items, |items|);
    forall j | 0 <= j < |list| && list[j].mark.Some?
      ensures exists i :: 0 <= i < j && list[i].id == list[j].mark
    {
      MarksEarlier(None, items, j);
      var i :| 0 <= i < j && tags[i].id == tags[j].mark;
      assert list[i].id == list[j].mark;
    }
    forall i | 0 <= i < |list|
      ensures list[i].id.Some?
    {
      if i >= |items| { assert tags[i] == DeeperTags(items, |items|)[i - |items|]; }
    }
  }

  lemma TreeSettles(list: seq<Node>, items: seq<Node>)
    requires Plain(items) && TagsMatch(list, TagsOf(None, items)) && DistinctIds(TagsOf(None, items))
    ensures Settles(list, FlagsOf(items))
  {
    var tags := TagsOf(None, items);
    TagLengths(None, items);
    TreeIsTraceable(list, items);
    forall i | 0 <= i < |tags|
      ensures tags[i].id != None
    {
      assert list[i].id.Some?;
    }
    ForestSettles(None, items);
    forall i | 0 <= i < |list|
      ensures Named(list, FlagsOf(items), 0, i) <==> NamedIn(tags, FlagsOf(items), tags[i].id)
    {
      if j :| 0 <= j < |list| && FlagsOf(items)[j] && list[j].mark == list[i].id { assert tags[j].mark == tags[i].id; }
      if j :| 0 <= j < |tags| && FlagsOf(items)[j] && tags[j].mark == tags[i].id { assert list[j].mark == list[i].id; }
    }
  }

  /** What compacting leaves under a first-level item, for trees of any height with distinct ids:
      of everything lifted there, exactly the items none of whose own children survives, in the same
      order and with their marks deleted. */
  lemma CompactKeepsSurvivors(join: LinkJoin, root: Node)
    requires Plain(root.items) && DistinctIds(TagsOf(None, root.items))
    ensures |FlagsOf(root.items)| == |LiftedTree(join, root)|
    ensures CompactRoot(join, root).items == Survivors(LiftedTree(join, root), FlagsOf(root.items), 0)
  {
    TagLengths(None, root.items);
    LiftedTreeTags(join, root);
    TreeIsTraceable(LiftedTree(join, root), root.items);
    TreeSettles(LiftedTree(join, root), root.items);
    PruneKeepsSurvivors(LiftedTree(join, root), FlagsOf(root.items));
  }

  // ---------------------------------------------------------------- trees of three levels

  lemma SurvivorsStep(list: seq<Node>, flags: seq<bool>, k: nat)
    requires |flags| == |list| && k <= |list|
    ensures Survivors(list, flags, k)
            == if k == |list| then [] else (if flags[k] then [Unmark(list[k])] else []) + Survivors(list, flags, k + 1)
  {
  }

  lemma {:induction false} SurvivorsConcat(a: seq<Node>, aFlags: seq<bool>, b: seq<Node>, bFlags: seq<bool>, k: nat)
    requires |a| == |aFlags| && |b| == |bFlags| && k <= |a|
    ensures Survivors(a + b, aFlags + bFlags, k) == Survivors(a, aFlags, k) + Survivors(b, bFlags, 0)
    decreases |a| - k
  {
    hide Survivors, Unmark;
    SurvivorsStep(a, aFlags, k);
    if k == |a| {
      SurvivorsShift(a, aFlags, b, bFlags, 0);
      ConcatNothing(Survivors(b, bFlags, 0));
    } else {
      SurvivorsStep(a + b, aFlags + bFlags, k);
      SurvivorsConcat(a, aFlags, b, bFlags, k + 1);
      assert (a + b)[k] == a[k] && (aFlags + bFlags)[k] == aFlags[k];
      ConcatIsAssociative(if aFlags[k] then [Unmark(a[k])] else [],
                          Survivors(a, aFlags, k + 1), Survivors(b, bFlags, 0));
    }
  }

  lemma {:induction false} SurvivorsShift(a: seq<Node>, aFlags: seq<bool>, b: seq<Node>, bFlags: seq<bool>, k: nat)
    requires |a| == |aFlags| && |b| == |bFlags| && k <= |b|
    ensures Survivors(a + b, aFlags + bFlags, |a| + k) == Survivors(b, bFlags, k)
    decreases |b| - k
  {
    hide Survivors;
    SurvivorsStep(a + b, aFlags + bFlags, |a| + k);
    SurvivorsStep(b, bFlags, k);
    if k < |b| {
      SurvivorsShift(a, aFlags, b, bFlags, k + 1);
      assert (a + b)[|a| + k] == b[k] && (aFlags + bFlags)[|a| + k] == bFlags[k];
    }
  }

  lemma {:induction false} AllSurvive(list: seq<Node>, flags: seq<bool>, k: nat)
    requires |flags| == |list| && k <= |list| && forall i :: 0 <= i < |flags| ==> flags[i]
    ensures Survivors(list, flags, k) == UnmarkAll(list[k..])
    decreases |list| - k
  {
    hide Survivors, UnmarkAll;
    SurvivorsStep(list, flags, k);
    if k == |list| {
      assert list[k..] == [];
      UnmarkNone();
    } else {
      AllSurvive(list, flags, k + 1);
      UnmarkHead(list, k);
    }
  }

  lemma UnmarkNone()
    ensures UnmarkAll([]) == []
  {
  }

  lemma UnmarkHead(list: seq<Node>, k: nat)
    requires k < |list|
    ensures UnmarkAll(list[k..]) == [Unmark(list[k])] + UnmarkAll(list[k + 1..])
  {
    hide Unmark;
  }

  function UnmarkAll(list: seq<Node>): seq<Node> {
    seq(|list|, i requires 0 <= i < |list| => Unmark(list[i]))
  }

  /** The children without children of their own, in order. */
  ghost function LeafChildren(items: seq<Node>, k: nat): seq<Node>
    requires k <= |items|
    decreases |items| - k
  {
    if k == |items| then []
    else (if items[k].items == [] then [items[k]] else []) + LeafChildren(items, k + 1)
  }

  /** Every grandchild with what it takes from the child above it, in order. */
  ghost function Grandchildren(join: LinkJoin, items: seq<Node>): seq<Node> {
    FlatMap((child: Node) => TransformAll(child.items, Some(Strip(child)), Lifting(join)), items)
  }

  lemma {:induction false} WalkLeaves(join: LinkJoin, items: seq<Node>, level: nat)
    requires level >= 2 && forall i :: 0 <= i < |items| ==> items[i].items == []
    ensures Kept(items, level, 2, Lifting(join)) == items
    ensures Lifted(items, level, 2, Lifting(join)) == []
  {
    if items != [] {
      WalkLeaves(join, items[1..], level);
      assert WalkedItems([], level + 1, 2, Lifting(join)) == [];
      assert Walked(items[0], level, 2, Lifting(join)) == items[0];
      assert TransformAll([], Some(Strip(items[0])), Lifting(join)) == [];
      HeadTail(items, []);
    }
  }

  lemma {:induction false} HeightTwo(items: seq<Node>, i: nat, j: nat)
    requires Height(items) <= 2 && i < |items| && j < |items[i].items|
    ensures items[i].items[j].items == []
  {
    if i > 0 {
      HeightTwo(items[1..], i - 1, j);
    } else {
      HeightAt(items[0].items, j);
    }
  }

  lemma {:induction false} HeightAt(items: seq<Node>, j: nat)
    requires j < |items|
    ensures Height(items[j].items) < Height(items)
  {
    if j > 0 { HeightAt(items[1..], j - 1); }
  }

  lemma {:induction false} WalkChildren(join: LinkJoin, items: seq<Node>)
    requires forall i, j :: 0 <= i < |items| && 0 <= j < |items[i].items| ==> items[i].items[j].items == []
    ensures Kept(items, 2, 2, Lifting(join)) == Strips(items)
    ensures Lifted(items, 2, 2, Lifting(join)) == Grandchildren(join, items)
  {
    if items != [] {
      var child := items[0];
      WalkLeaves(join, child.items, 3);
      assert WalkedItems(child.items, 3, 2, Lifting(join)) == child.items + [];
      assert Walked(child, 2, 2, Lifting(join)) == child;
      WalkChildren(join, items[1..]);
      assert Strips(items) == [Strip(child)] + Strips(items[1..]);
    }
  }

  lemma {:induction false} LeavesSurvive(items: seq<Node>, k: nat)
    requires k <= |items| && Plain(items)
    requires forall i, j :: 0 <= i < |items| && 0 <= j < |items[i].items| ==> items[i].items[j].items == []
    ensures Survivors(Strips(items), TopFlags(items), k) == LeafChildren(items, k)
    decreases |items| - k
  {
    if k < |items| {
      LeavesSurvive(items, k + 1);
      var item := items[k];
      if item.items != [] {
        assert Survives(item.items[0]);
      }
    }
  }

  lemma {:induction false} GrandchildrenFlags(items: seq<Node>, m: nat)
    requires m <= |items|
    requires forall i, j :: 0 <= i < |items| && 0 <= j < |items[i].items| ==> items[i].items[j].items == []
    ensures forall i :: 0 <= i < |DeeperFlags(items, m)| ==> DeeperFlags(items, m)[i]
  {
    if m > 0 {
      GrandchildrenFlags(items, m - 1);
      var leaves := items[m - 1].items;
      LeafFlags(leaves, |leaves|);
      assert DeeperFlags(items, m) == DeeperFlags(items, m - 1) + (TopFlags(leaves) + DeeperFlags(leaves, |leaves|));
    }
  }

  lemma {:induction false} LeafFlags(leaves: seq<Node>, m: nat)
    requires m <= |leaves| && forall i :: 0 <= i < |leaves| ==> leaves[i].items == []
    ensures DeeperFlags(leaves, m) == []
  {
    if m > 0 {
      LeafFlags(leaves, m - 1);
      assert leaves[m - 1].items == [];
      assert TopFlags([]) == [] && DeeperFlags([], 0) == [];
    }
  }

  /** A first-level item of at most two levels below it ends with its leaf children in order, then
      all its grandchildren in order, and no container. */
  lemma CompactThreeLevels(join: LinkJoin, root: Node)
    requires Plain(root.items) && DistinctIds(TagsOf(None, root.items)) && Height(root.items) <= 2
    ensures CompactRoot(join, root).items == LeafChildren(root.items, 0) + UnmarkAll(Grandchildren(join, root.items))
  {
    var items := root.items;
    forall i, j | 0 <= i < |items| && 0 <= j < |items[i].items|
      ensures items[i].items[j].items == []
    {
      HeightTwo(items, i, j);
    }
    CompactKeepsSurvivors(join, root);
    WalkChildren(join, items);
    LeavesSurvive(items, 0);
    GrandchildrenFlags(items, |items|);
    var deeper := DeeperFlags(items, |items|);
    var lifted := Grandchildren(join, items);
    assert |deeper| == |lifted|;
    SurvivorsConcat(Strips(items), TopFlags(items), lifted, deeper, 0);
    AllSurvive(lifted, deeper, 0);
    assert lifted[0..] == lifted;
  }

  // ---------------------------------------------------------------- component paths

  /** Component names from an item down, each after those of the items above it. */
  ghost function NamesOf(prefix: string, items: seq<Node>): seq<string>
    decreases items, 0, 1
  {
    TopNames(prefix, items) + DeeperNames(prefix, items, |items|)
  }

  ghost function TopNames(prefix: string, items: seq<Node>): seq<string> {
    seq(|items|, i requires 0 <= i < |items| => JoinNames(prefix, items[i].component))
  }

  ghost function DeeperNames(prefix: string, items: seq<Node>, m: nat): seq<string>
    requires m <= |items|
    decreases items, 0, 0, m
  {
    if m == 0 then []
    else DeeperNames(prefix, items, m - 1) + NamesOf(JoinNames(prefix, items[m - 1].component), items[m - 1].items)
  }

  ghost function JoinAll(prefix: string, names: seq<string>): seq<string> {
    seq(|names|, i requires 0 <= i < |names| => JoinNames(prefix, names[i]))
  }

  lemma JoinNamesAssociative(a: string, b: string, c: string)
    ensures JoinNames(a, JoinNames(b, c)) == JoinNames(JoinNames(a, b), c)
  {
    if a != "" && b != "" && c != "" {
      assert a + "." + (b + "." + c) == a + "." + b + "." + c;
    }
  }

  lemma JoinAllConcat(prefix: string, a: seq<string>, b: seq<string>)
    ensures JoinAll(prefix, a + b) == JoinAll(prefix, a) + JoinAll(prefix, b)
  {
  }

  lemma {:induction false} NamesPrefixed(a: string, b: string, items: seq<Node>)
    ensures NamesOf(JoinNames(a, b), items) == JoinAll(a, NamesOf(b, items))
    decreases items, |items| + 1
  {
    DeeperNamesPrefixed(a, b, items, |items|);
    forall i | 0 <= i < |items|
      ensures JoinNames(JoinNames(a, b), items[i].component) == JoinNames(a, JoinNames(b, items[i].component))
    {
      JoinNamesAssociative(a, b, items[i].component);
    }
    assert TopNames(JoinNames(a, b), items) == JoinAll(a, TopNames(b, items));
    JoinAllConcat(a, TopNames(b, items), DeeperNames(b, items, |items|));
  }

  lemma {:induction false} DeeperNamesPrefixed(a: string, b: string, items: seq<Node>, m: nat)
    requires m <= |items|
    ensures DeeperNames(JoinNames(a, b), items, m) == JoinAll(a, DeeperNames(b, items, m))
    decreases items, m
  {
    hide NamesOf, TopNames, JoinAll, JoinNames;
    if m == 0 {
      JoinAllOfNone(a);
    } else {
      DeeperNamesPrefixed(a, b, items, m - 1);
      var last := items[m - 1];
      JoinNamesAssociative(a, b, last.component);
      NamesPrefixed(a, JoinNames(b, last.component), last.items);
      JoinAllConcat(a, DeeperNames(b, items, m - 1), NamesOf(JoinNames(b, last.component), last.items));
    }
  }

  lemma JoinAllOfNone(prefix: string)
    ensures JoinAll(prefix, []) == []
  {
  }

  ghost function Names(list: seq<Node>): seq<string> {
    seq(|list|, i requires 0 <= i < |list| => list[i].component)
  }

  lemma NamesConcat(a: seq<Node>, b: seq<Node>)
    ensures Names(a + b) == Names(a) + Names(b)
  {
  }

  lemma {:induction false} WalkNames(join: LinkJoin, items: seq<Node>, level: nat, m: nat)
    requires level >= 2 && m <= |items|
    ensures Names(Kept(items[..m], level, 2, Lifting(join))) == TopNames("", items)[..m]
    ensures Names(Lifted(items[..m], level, 2, Lifting(join))) == DeeperNames("", items, m)
    decreases items, m
  {
    hide NamesOf, TopNames, Names, Walked, Kept, Lifted, LiftedFrom, Strip;
    if m == 0 {
      WalkNamesNothing(join, items, level);
    } else {
      var last := items[m - 1];
      var before := items[..m - 1];
      WalkNames(join, items, level, m - 1);
      assert items[..m] == before + [last];
      KeptSnoc(before, last, level, 2, Lifting(join));
      LiftedSnoc(before, last, level, 2, Lifting(join));
      var walked := Walked(last, level, 2, Lifting(join));
      LiftedNames(join, last, level);
      WalkedName(join, last, level);
      NamesConcat(Kept(before, level, 2, Lifting(join)), [Strip(walked)]);
      NamesConcat(Lifted(before, level, 2, Lifting(join)), LiftedFrom(walked, level, 2, Lifting(join)));
      TopNamesOne(items, m - 1);
      assert TopNames("", items)[..m] == TopNames("", items)[..m - 1] + [last.component];
    }
  }

  lemma WalkNamesNothing(join: LinkJoin, items: seq<Node>, level: nat)
    ensures Names(Kept(items[..0], level, 2, Lifting(join))) == TopNames("", items)[..0]
    ensures Names(Lifted(items[..0], level, 2, Lifting(join))) == DeeperNames("", items, 0)
  {
  }

  lemma WalkedName(join: LinkJoin, node: Node, level: nat)
    requires level >= 2
    ensures Names([Strip(Walked(node, level, 2, Lifting(join)))]) == [node.component]
  {
  }

  lemma TopNamesOne(items: seq<Node>, m: nat)
    requires m < |items|
    ensures |TopNames("", items)| == |items| && TopNames("", items)[m] == items[m].component
  {
  }

  lemma {:induction false} LiftedNames(join: LinkJoin, node: Node, level: nat)
    requires level >= 2
    ensures Names(LiftedFrom(Walked(node, level, 2, Lifting(join)), level, 2, Lifting(join)))
            == NamesOf(node.component, node.items)
    decreases node.items, |node.items| + 1
  {
    var items := node.items;
    var n := |items|;
    WalkNames(join, items, level + 1, n);
    assert items[..n] == items && TopNames("", items)[..n] == TopNames("", items);
    var walked := Walked(node, level, 2, Lifting(join));
    NamesConcat(Kept(items, level + 1, 2, Lifting(join)), Lifted(items, level + 1, 2, Lifting(join)));
    assert walked.items == WalkedItems(items, level + 1, 2, Lifting(join));
    assert Names(walked.items) == NamesOf("", items);
    assert Names(TransformAll(walked.items, Some(Strip(walked)), Lifting(join)))
           == JoinAll(node.component, Names(walked.items));
    NamesPrefixed(node.component, "", items);
    assert JoinNames(node.component, "") == node.component;
  }

  /** Every lifted item carries the dot-joined names of all components from the second level down
      to itself, whatever the height. */
  lemma LiftedItemsCarryTheirPath(join: LinkJoin, root: Node)
    ensures Names(LiftedTree(join, root)) == NamesOf("", root.items)
  {
    var items := root.items;
    var n := |items|;
    WalkNames(join, items, 2, n);
    assert items[..n] == items && TopNames("", items)[..n] == TopNames("", items);
    NamesConcat(Kept(items, 2, 2, Lifting(join)), Lifted(items, 2, 2, Lifting(join)));
  }
}
