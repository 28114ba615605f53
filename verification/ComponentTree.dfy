/** Component trees (blocklet/meta util): a component is known by the path of DIDs that leads to it,
    and looked up by walking the tree. */
module ComponentTree {

  import opened Common
  import opened Text

  /** A component; without meta its DID is the empty text. */
  datatype Component = Component(did: string, children: seq<Component>)

  /** A component met on a walk, with the components above it from the root down. */
  datatype Visit = Visit(component: Component, ancestors: seq<Component>)

  function Dids(components: seq<Component>): seq<string> {
    seq(|components|, i requires 0 <= i < |components| => components[i].did)
  }

  /** `getComponentId`. */
  function ComponentId(v: Visit): string {
    Join(Dids(v.ancestors), "/") + (if v.ancestors != [] then "/" else "") + v.component.did
  }

  /** The DIDs from the root to the component. */
  function DidPath(v: Visit): seq<string> {
    Dids(v.ancestors) + [v.component.did]
  }

  // ---------------------------------------------------------------- walking

  /** The visits of a walk: a component before its children, and these in order. */
  function Visits(c: Component, ancestors: seq<Component>): (visits: seq<Visit>)
    ensures visits != [] && visits[0] == Visit(c, ancestors)
    decreases c, 1, 0
  {
    [Visit(c, ancestors)] + VisitsBelow(c, |c.children|, ancestors + [c])
  }

  /** The visits of the first n children. */
  function VisitsBelow(c: Component, n: nat, ancestors: seq<Component>): seq<Visit>
    requires n <= |c.children|
    decreases c, 0, n
  {
    if n == 0 then [] else VisitsBelow(c, n - 1, ancestors) + Visits(c.children[n - 1], ancestors)
  }

  /** The visits before those of child i. */
  function Before(c: Component, i: nat, ancestors: seq<Component>): seq<Visit>
    requires i <= |c.children|
  {
    [Visit(c, ancestors)] + VisitsBelow(c, i, ancestors + [c])
  }

  lemma BeforeNext(c: Component, i: nat, ancestors: seq<Component>)
    requires i < |c.children|
    ensures Before(c, i + 1, ancestors) == Before(c, i, ancestors) + Visits(c.children[i], ancestors + [c])
  {
    hide Visits;
    assert VisitsBelow(c, i + 1, ancestors + [c])
           == VisitsBelow(c, i, ancestors + [c]) + Visits(c.children[i], ancestors + [c]);
  }

  function Walk(root: Component): seq<Visit> {
    Visits(root, [])
  }

  /** What `forEachBlockletSync` passes to its callback. */
  datatype Call = Call(component: Component, parent: Option<Component>, root: Component, level: nat,
                       ancestors: seq<Component>, id: string)

  function CallOf(root: Component, v: Visit): Call {
    Call(v.component, if v.ancestors == [] then None else Some(v.ancestors[|v.ancestors| - 1]), root, |v.ancestors|,
         v.ancestors, ComponentId(v))
  }

  function Calls(root: Component, visits: seq<Visit>): seq<Call> {
    seq(|visits|, i requires 0 <= i < |visits| => CallOf(root, visits[i]))
  }

  /** The callback is called once for every component, parents first, each time with the component's
      own parent, level, ancestors and id. */
  method ForEachBlocklet(c: Component, parent: Option<Component>, root: Component, level: nat,
                         ancestors: seq<Component>)
    returns (calls: seq<Call>)
    requires level == |ancestors|
    requires parent == if ancestors == [] then None else Some(ancestors[|ancestors| - 1])
    ensures calls == Calls(root, Visits(c, ancestors))
    decreases c
  {
    calls := [Call(c, parent, root, level, ancestors, ComponentId(Visit(c, ancestors)))];
    CallsStart(root, c, ancestors);
    var i := 0;
    while i < |c.children|
      invariant 0 <= i <= |c.children|
      invariant calls == Calls(root, Before(c, i, ancestors))
    {
      hide Calls, Before, Visits;
      var below := ForEachBlocklet(c.children[i], Some(c), root, level + 1, ancestors + [c]);
      CallsConcat(root, Before(c, i, ancestors), Visits(c.children[i], ancestors + [c]));
      BeforeNext(c, i, ancestors);
      calls := calls + below;
      i := i + 1;
    }
  }

  lemma CallsStart(root: Component, c: Component, ancestors: seq<Component>)
    ensures Calls(root, Before(c, 0, ancestors)) == [CallOf(root, Visit(c, ancestors))]
  {
  }

  lemma CallsConcat(root: Component, a: seq<Visit>, b: seq<Visit>)
    ensures Calls(root, a + b) == Calls(root, a) + Calls(root, b)
  {
  }

  // ---------------------------------------------------------------- finding

  /** The first visit with the property. */
  ghost predicate IsFirst(visits: seq<Visit>, matches: Visit -> bool, found: Option<Visit>) {
    match found
    case None => forall i :: 0 <= i < |visits| ==> !matches(visits[i])
    case Some(v) => exists i :: 0 <= i < |visits| && visits[i] == v && matches(v)
                                && forall j :: 0 <= j < i ==> !matches(visits[j])
  }

  lemma FirstInConcat(a: seq<Visit>, b: seq<Visit>, matches: Visit -> bool, found: Option<Visit>)
    requires IsFirst(a, matches, None) && IsFirst(b, matches, found)
    ensures IsFirst(a + b, matches, found)
  {
    if found.Some? {
      var i :| 0 <= i < |b| && b[i] == found.value && matches(found.value) && forall j :: 0 <= j < i ==> !matches(b[j]);
      assert (a + b)[|a| + i] == found.value;
    }
  }

  lemma FirstStays(a: seq<Visit>, b: seq<Visit>, matches: Visit -> bool, found: Option<Visit>)
    requires found.Some? && IsFirst(a, matches, found)
    ensures IsFirst(a + b, matches, found)
  {
    var i :| 0 <= i < |a| && a[i] == found.value && matches(found.value) && forall j :: 0 <= j < i ==> !matches(a[j]);
    assert (a + b)[i] == found.value;
  }

  /** The visits that are still to come. */
  lemma {:induction false} VisitsSplit(c: Component, n: nat, ancestors: seq<Component>) returns (rest: seq<Visit>)
    requires n <= |c.children|
    ensures Visits(c, ancestors) == Before(c, n, ancestors) + rest
    decreases |c.children| - n
  {
    if n == |c.children| {
      rest := [];
    } else {
      var after := VisitsSplit(c, n + 1, ancestors);
      hide Visits, Before;
      BeforeNext(c, n, ancestors);
      rest := Visits(c.children[n], ancestors + [c]) + after;
    }
  }

  /** `findComponent` finds the first component of the walk that has the property. */
  method FindComponent(c: Component, matches: Visit -> bool, ancestors: seq<Component>) returns (found: Option<Visit>)
    ensures IsFirst(Visits(c, ancestors), matches, found)
    decreases c
  {
    var self := Visit(c, ancestors);
    if matches(self) {
      return Some(self);
    }
    var i := 0;
    while i < |c.children|
      invariant 0 <= i <= |c.children|
      invariant IsFirst(Before(c, i, ancestors), matches, None)
    {
      hide IsFirst, Before, Visits;
      found := FindComponent(c.children[i], matches, ancestors + [c]);
      FirstInConcat(Before(c, i, ancestors), Visits(c.children[i], ancestors + [c]), matches, found);
      BeforeNext(c, i, ancestors);
      if found.Some? {
        ghost var rest := VisitsSplit(c, i + 1, ancestors);
        FirstStays(Before(c, i + 1, ancestors), rest, matches, found);
        return;
      }
      i := i + 1;
    }
    found := None;
  }

  // ---------------------------------------------------------------- ids are unique

  /** No DID contains a slash, and siblings have different DIDs. */
  predicate WellFormed(c: Component) {
    && '/' !in c.did
    && (forall i :: 0 <= i < |c.children| ==> WellFormed(c.children[i]))
    && (forall i, j :: 0 <= i < j < |c.children| ==> c.children[i].did != c.children[j].did)
  }

  predicate NoSlash(components: seq<Component>) {
    forall i :: 0 <= i < |components| ==> '/' !in components[i].did
  }

  /** The id is the path of DIDs, joined by slashes. */
  lemma IdIsJoinedPath(v: Visit)
    ensures ComponentId(v) == Join(DidPath(v), "/")
  {
    if v.ancestors != [] {
      JoinConcat(Dids(v.ancestors), [v.component.did], "/");
    }
  }

  /** Ids without further slashes tell the paths apart. */
  lemma IdsTellPathsApart(v: Visit, w: Visit)
    requires NoSlash(v.ancestors + [v.component]) && NoSlash(w.ancestors + [w.component])
    ensures ComponentId(v) == ComponentId(w) <==> DidPath(v) == DidPath(w)
  {
    IdIsJoinedPath(v);
    IdIsJoinedPath(w);
    PathHasNoSlash(v);
    PathHasNoSlash(w);
    SplitJoin(DidPath(v), '/');
    SplitJoin(DidPath(w), '/');
  }

  lemma PathHasNoSlash(v: Visit)
    requires NoSlash(v.ancestors + [v.component])
    ensures forall i :: 0 <= i < |DidPath(v)| ==> '/' !in DidPath(v)[i]
  {
    assert forall i :: 0 <= i < |DidPath(v)| ==> DidPath(v)[i] == (v.ancestors + [v.component])[i].did;
  }

  /** All the paths begin like this. */
  ghost predicate Starts(visits: seq<Visit>, prefix: seq<string>) {
    forall i :: 0 <= i < |visits| ==> prefix <= DidPath(visits[i])
  }

  ghost predicate PathsDiffer(visits: seq<Visit>) {
    forall i, j :: 0 <= i < j < |visits| ==> DidPath(visits[i]) != DidPath(visits[j])
  }

  ghost predicate SlashFree(visits: seq<Visit>) {
    forall i :: 0 <= i < |visits| ==> NoSlash(visits[i].ancestors + [visits[i].component])
  }

  lemma DidsSnoc(ancestors: seq<Component>, c: Component)
    ensures Dids(ancestors + [c]) == Dids(ancestors) + [c.did]
  {
  }

  lemma PathsDifferConcat(a: seq<Visit>, b: seq<Visit>, depth: nat)
    requires PathsDiffer(a) && PathsDiffer(b)
    requires forall i :: 0 <= i < |a| ==> |DidPath(a[i])| > depth
    requires forall j :: 0 <= j < |b| ==> |DidPath(b[j])| > depth
    requires forall i, j :: 0 <= i < |a| && 0 <= j < |b| ==> DidPath(a[i])[depth] != DidPath(b[j])[depth]
    ensures PathsDiffer(a + b)
  {
    hide DidPath;
    forall i, j | 0 <= i < j < |a + b|
      ensures DidPath((a + b)[i]) != DidPath((a + b)[j])
    {
      assert i < |a| ==> (a + b)[i] == a[i];
      assert j >= |a| ==> (a + b)[j] == b[j - |a|];
    }
  }

  /** The paths of the first n children's visits all go through one of these children. */
  ghost predicate ThroughFirst(visits: seq<Visit>, c: Component, n: nat, prefix: seq<string>)
    requires n <= |c.children|
  {
    forall i :: 0 <= i < |visits| ==>
      && |DidPath(visits[i])| > |prefix|
      && exists k :: 0 <= k < n && DidPath(visits[i])[|prefix|] == c.children[k].did
  }

  lemma {:induction false} VisitsDiffer(c: Component, ancestors: seq<Component>)
    requires WellFormed(c) && NoSlash(ancestors)
    ensures var visits := Visits(c, ancestors);
            Starts(visits, Dids(ancestors) + [c.did]) && PathsDiffer(visits) && SlashFree(visits)
    decreases c, 1, 0
  {
    BelowDiffer(c, |c.children|, ancestors + [c]);
    DidsSnoc(ancestors, c);
    var below := VisitsBelow(c, |c.children|, ancestors + [c]);
    hide VisitsBelow, WellFormed;
    HeadDiffers(Visit(c, ancestors), below, c);
  }

  lemma HeadDiffers(v: Visit, below: seq<Visit>, c: Component)
    requires Starts(below, DidPath(v)) && PathsDiffer(below) && SlashFree(below)
    requires ThroughFirst(below, c, |c.children|, DidPath(v)) && NoSlash(v.ancestors + [v.component])
    ensures Starts([v] + below, DidPath(v)) && PathsDiffer([v] + below) && SlashFree([v] + below)
  {
    hide DidPath, NoSlash;
    var visits := [v] + below;
    assert forall i :: 0 < i < |visits| ==> visits[i] == below[i - 1];
  }

  lemma {:induction false} BelowDiffer(c: Component, n: nat, ancestors: seq<Component>)
    requires WellFormed(c) && NoSlash(ancestors) && n <= |c.children|
    ensures var visits := VisitsBelow(c, n, ancestors);
            Starts(visits, Dids(ancestors)) && PathsDiffer(visits) && SlashFree(visits)
            && ThroughFirst(visits, c, n, Dids(ancestors))
    decreases c, 0, n
  {
    if n > 0 {
      BelowDiffer(c, n - 1, ancestors);
      VisitsDiffer(c.children[n - 1], ancestors);
      JoinDiffer(c, n, ancestors, VisitsBelow(c, n - 1, ancestors), Visits(c.children[n - 1], ancestors));
    }
  }

  lemma JoinDiffer(c: Component, n: nat, ancestors: seq<Component>, a: seq<Visit>, b: seq<Visit>)
    requires WellFormed(c) && 0 < n <= |c.children|
    requires Starts(a, Dids(ancestors)) && PathsDiffer(a) && SlashFree(a)
    requires ThroughFirst(a, c, n - 1, Dids(ancestors))
    requires Starts(b, Dids(ancestors) + [c.children[n - 1].did]) && PathsDiffer(b) && SlashFree(b)
    ensures Starts(a + b, Dids(ancestors)) && PathsDiffer(a + b) && SlashFree(a + b)
    ensures ThroughFirst(a + b, c, n, Dids(ancestors))
  {
    hide DidPath, Dids, NoSlash;
    var prefix := Dids(ancestors);
    var depth := |prefix|;
    assert forall j :: 0 <= j < |b| ==> DidPath(b[j])[depth] == c.children[n - 1].did && prefix <= DidPath(b[j]) by {
      assert (prefix + [c.children[n - 1].did])[depth] == c.children[n - 1].did;
    }
    PathsDifferConcat(a, b, depth);
  }

  /** In a well-formed tree all components have different ids. */
  lemma IdsAreUnique(root: Component, i: nat, j: nat)
    requires WellFormed(root) && i < j < |Walk(root)|
    ensures ComponentId(Walk(root)[i]) != ComponentId(Walk(root)[j])
  {
    VisitsDiffer(root, []);
    hide Visits, DidPath;
    IdsTellPathsApart(Walk(root)[i], Walk(root)[j]);
  }

  // ---------------------------------------------------------------- finding by id

  method FindComponentById(root: Component, id: string) returns (found: Option<Visit>)
    ensures found.Some? ==> found.value in Walk(root) && ComponentId(found.value) == id
    ensures found.None? ==> forall v :: v in Walk(root) ==> ComponentId(v) != id
    ensures WellFormed(root) ==> forall v :: v in Walk(root) && ComponentId(v) == id ==> found == Some(v)
  {
    found := FindComponent(root, v => ComponentId(v) == id, []);
    if WellFormed(root) {
      hide Visits, WellFormed;
      forall v | v in Walk(root) && ComponentId(v) == id
        ensures found == Some(v)
      {
        OnlyOne(root, v, found.value);
      }
    }
  }

  /** A path of DIDs is looked up as the id it joins to. */
  method FindComponentByPath(root: Component, path: seq<string>) returns (found: Option<Visit>)
    ensures found.Some? ==> found.value in Walk(root) && ComponentId(found.value) == Join(path, "/")
    ensures WellFormed(root) ==> forall v :: v in Walk(root) && DidPath(v) == path ==> found == Some(v)
  {
    found := FindComponentById(root, Join(path, "/"));
    forall v | v in Walk(root) && DidPath(v) == path
      ensures ComponentId(v) == Join(path, "/")
    {
      IdIsJoinedPath(v);
    }
  }

  lemma OnlyOne(root: Component, v: Visit, w: Visit)
    requires WellFormed(root) && v in Walk(root) && w in Walk(root) && ComponentId(v) == ComponentId(w)
    ensures v == w
  {
    hide Visits, WellFormed, ComponentId;
    var i :| 0 <= i < |Walk(root)| && Walk(root)[i] == v;
    var j :| 0 <= j < |Walk(root)| && Walk(root)[j] == w;
    if i < j {
      IdsAreUnique(root, i, j);
    } else if j < i {
      IdsAreUnique(root, j, i);
    }
  }
}
