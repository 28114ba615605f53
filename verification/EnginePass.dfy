/** The separate pass for a component's blocklet engine: whatever the schedule, it is over before any
    of the component's own configurations is resolved. */
module EnginePass {

  import opened Common
  import opened Resolver

  // ---------------------------------------------------------------- places in the unfolding

  /** The path leads from p through one of the component's own configurations. */
  ghost predicate ChildUnder(path: Path, p: Path) {
    |p| < |path| && p <= path && path[|p|] >= 0
  }

  /** The path leads from p through its engine pass. */
  ghost predicate EngineUnder(path: Path, p: Path) {
    |p| < |path| && p <= path && path[|p|] == -1
  }

  ghost predicate NoChildrenYet(resolved: seq<Entry>, p: Path) {
    forall i :: 0 <= i < |resolved| ==> !ChildUnder(resolved[i].path, p)
  }

  ghost predicate NothingAt(resolved: seq<Entry>, p: Path) {
    forall i :: 0 <= i < |resolved| ==> !(p <= resolved[i].path)
  }

  /** No entry of an engine pass comes after one of the component's own configurations. */
  ghost predicate EnginesFirst(resolved: seq<Entry>) {
    forall i, j, p :: 0 <= i < j < |resolved| && EngineUnder(resolved[j].path, p) ==> !ChildUnder(resolved[i].path, p)
  }

  // ---------------------------------------------------------------- what every step keeps

  /** The task works at the place r and below. */
  ghost predicate Placed(t: Task, r: Path) {
    match t
    case Resolve(_, _, path) => path == r
    case Parse(_, _, path) => path == r
    case Then(first, rest) => Placed(first, r + [-1]) && rest.Parse? && rest.path == r
    case All(tasks) => forall i :: 0 <= i < |tasks| ==> Placed(tasks[i], r + [i])
  }

  /** What is still to come finds nothing in its way. */
  ghost predicate Calm(resolved: seq<Entry>, t: Task, r: Path) {
    match t
    case Resolve(_, _, _) => NothingAt(resolved, r)
    case Parse(_, _, _) => NoChildrenYet(resolved, r)
    case Then(first, rest) => Calm(resolved, first, r + [-1]) && NoChildrenYet(resolved, r)
    case All(tasks) => forall i :: 0 <= i < |tasks| ==> Calm(resolved, tasks[i], r + [i])
  }

  /** At or below r, an entry at this path is in no engine pass that is over. */
  ghost predicate Respects(resolved: seq<Entry>, path: Path, r: Path) {
    forall p :: r <= p && EngineUnder(path, p) ==> NoChildrenYet(resolved, p)
  }

  lemma {:induction false} CalmElsewhere(resolved: seq<Entry>, e: Entry, t: Task, r: Path)
    requires Calm(resolved, t, r) && !(r <= e.path)
    ensures Calm(resolved + [e], t, r)
    decreases t
  {
    match t
    case Resolve(_, _, _) =>
    case Parse(_, _, _) =>
    case Then(first, rest) =>
      assert !(r + [-1] <= e.path) by { StartsShorter(r, -1, e.path); }
      CalmElsewhere(resolved, e, first, r + [-1]);
    case All(tasks) =>
      forall i | 0 <= i < |tasks|
        ensures Calm(resolved + [e], tasks[i], r + [i])
      {
        assert !(r + [i] <= e.path) by { StartsShorter(r, i, e.path); }
        CalmElsewhere(resolved, e, tasks[i], r + [i]);
      }
  }

  lemma StartsShorter(r: Path, slot: int, path: Path)
    ensures r + [slot] <= path ==> r <= path && |r| < |path| && path[|r|] == slot
  {
    if r + [slot] <= path {
      assert path[..|r| + 1] == r + [slot];
      assert path[..|r|] == path[..|r| + 1][..|r|];
      assert path[|r|] == path[..|r| + 1][|r|];
    }
  }

  lemma PushedStaysCalm(resolved: seq<Entry>, e: Entry, meta: Meta, ancestors: seq<Did>)
    requires NothingAt(resolved, e.path)
    ensures Placed(AfterPush(meta, ancestors, e.path), e.path)
    ensures Calm(resolved + [e], AfterPush(meta, ancestors, e.path), e.path)
  {
    var grown := resolved + [e];
    forall i | 0 <= i < |grown|
      ensures !ChildUnder(grown[i].path, e.path) && !ChildUnder(grown[i].path, e.path + [-1])
    {
      StartsShorter(e.path, -1, grown[i].path);
      if i < |resolved| { assert grown[i] == resolved[i]; }
    }
  }

  lemma CallStaysCalm(resolved: seq<Entry>, configs: seq<Config>, ancestors: seq<Did>, r: Path)
    requires NoChildrenYet(resolved, r)
    ensures Placed(All(ResolveAll(configs, ancestors, r)), r)
    ensures Calm(resolved, All(ResolveAll(configs, ancestors, r)), r)
  {
    forall i, k | 0 <= i < |configs| && 0 <= k < |resolved|
      ensures !(r + [i] <= resolved[k].path)
    {
      StartsShorter(r, i, resolved[k].path);
    }
  }

  /** Respecting the engine passes below a slot, and none of r itself being over, is respecting all. */
  lemma RespectsAbove(resolved: seq<Entry>, path: Path, r: Path, slot: int)
    requires r + [slot] <= path && Respects(resolved, path, r + [slot])
    requires slot >= 0 || NoChildrenYet(resolved, r)
    ensures r <= path && Respects(resolved, path, r)
  {
    StartsShorter(r, slot, path);
    forall p | r <= p && EngineUnder(path, p)
      ensures NoChildrenYet(resolved, p)
    {
      if |p| == |r| {
        assert p == r;
      } else {
        assert p == path[..|p|] && r + [slot] == path[..|r| + 1];
        assert p[..|r| + 1] == path[..|r| + 1];
      }
    }
  }

  lemma {:induction false} StepStaysCalm(store: Store, resolved: seq<Entry>, t: Task, r: Path, at: seq<nat>)
    requires Placed(t, r) && Calm(resolved, t, r) && StepAt(store, t, at).Moved?
    ensures var step := StepAt(store, t, at);
            && Placed(step.task, r) && Calm(resolved + step.pushed, step.task, r)
            && (step.pushed == [] ||
                (|step.pushed| == 1 && r <= step.pushed[0].path && Respects(resolved, step.pushed[0].path, r)))
    decreases t
  {
    hide Respects, NoChildrenYet, NothingAt;
    ConcatNothing(resolved);
    match t
    case Resolve(config, ancestors, path) =>
      var meta := store(config).meta;
      PushedStaysCalm(resolved, Entry(path, config, meta), meta, ancestors);
      NothingBelowItself(resolved, r);
    case Parse(configs, ancestors, path) => CallStaysCalm(resolved, configs, ancestors, path);
    case Then(first, rest) =>
      if !Done(first) {
        StepStaysCalm(store, resolved, first, r + [-1], at);
        var pushed := StepAt(store, first, at).pushed;
        if pushed != [] {
          RespectsAbove(resolved, pushed[0].path, r, -1);
          EngineLeavesNoChildren(resolved, pushed[0], r);
          assert pushed == [pushed[0]];
        }
      }
    case All(tasks) => BranchStaysCalm(store, resolved, tasks, r, at);
  }

  lemma {:induction false} BranchStaysCalm(store: Store, resolved: seq<Entry>, tasks: seq<Task>, r: Path, at: seq<nat>)
    requires Placed(All(tasks), r) && Calm(resolved, All(tasks), r) && StepAt(store, All(tasks), at).Moved?
    ensures var step := StepAt(store, All(tasks), at);
            && Placed(step.task, r) && Calm(resolved + step.pushed, step.task, r)
            && (step.pushed == [] ||
                (|step.pushed| == 1 && r <= step.pushed[0].path && Respects(resolved, step.pushed[0].path, r)))
    decreases tasks
  {
    hide Respects, NoChildrenYet, NothingAt;
    ConcatNothing(resolved);
    var b := at[0];
    StepStaysCalm(store, resolved, tasks[b], r + [b], at[1..]);
    var inner := StepAt(store, tasks[b], at[1..]);
    if inner.pushed != [] {
      var e := inner.pushed[0];
      assert inner.pushed == [e];
      RespectsAbove(resolved, e.path, r, b);
      forall i | 0 <= i < |tasks| && i != b
        ensures Calm(resolved + [e], tasks[i], r + [i])
      {
        StartsShorter(r, b, e.path);
        StartsShorter(r, i, e.path);
        CalmElsewhere(resolved, e, tasks[i], r + [i]);
      }
    }
  }

  lemma NothingBelowItself(resolved: seq<Entry>, r: Path)
    ensures Respects(resolved, r, r)
  {
  }

  lemma EngineLeavesNoChildren(resolved: seq<Entry>, e: Entry, r: Path)
    requires NoChildrenYet(resolved, r) && r + [-1] <= e.path
    ensures NoChildrenYet(resolved + [e], r)
  {
    StartsShorter(r, -1, e.path);
  }

  ghost predicate Orderly(s: State) {
    s.Running? ==> Placed(s.task, []) && Calm(s.resolved, s.task, []) && EnginesFirst(s.resolved)
  }

  lemma TurnStaysOrderly(store: Store, s: State, at: seq<nat>)
    requires Orderly(s)
    ensures Orderly(Turn(store, s, at))
  {
    hide Calm, Placed, StepAt;
    if s.Running? && StepAt(store, s.task, at).Moved? {
      StepStaysCalm(store, s.resolved, s.task, [], at);
      var pushed := StepAt(store, s.task, at).pushed;
      ConcatNothing(s.resolved);
      if pushed != [] { assert pushed == [pushed[0]]; }
    }
  }

  lemma {:induction false} RunStaysOrderly(store: Store, s: State, schedule: seq<seq<nat>>)
    requires Orderly(s)
    ensures Orderly(Run(store, s, schedule))
    decreases |schedule|
  {
    hide Orderly;
    if schedule != [] {
      TurnStaysOrderly(store, s, schedule[0]);
      RunStaysOrderly(store, Turn(store, s, schedule[0]), schedule[1..]);
    }
  }

  /** At every moment of every run, nothing of a component's engine pass is listed after anything of
      the component's own configurations. */
  lemma EnginePassComesFirst(store: Store, configs: seq<Config>, schedule: seq<seq<nat>>)
    ensures var s := Run(store, Start(configs), schedule);
            s.Running? ==> EnginesFirst(s.resolved)
  {
    RunStaysOrderly(store, Start(configs), schedule);
  }
}
