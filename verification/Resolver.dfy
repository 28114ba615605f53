/** Recursive resolution of component dependencies (blocklet/resolver). The concurrent
    continuations of `parseComponents` are modelled as a tree of tasks: any interleaving of
    their steps pushes into one shared list of resolved components. */
module Resolver {

  import opened Common
  import opened SemVer

  // ---------------------------------------------------------------- data

  datatype Source = Source(text: string)

  datatype Config = Config(source: Source, required: bool)

  /** `engine` is the source of a blocklet engine other than the built-in static server. */
  datatype Meta = Meta(did: Did, bundleDid: Did, version: Version, components: seq<Config>, engine: Option<Source>)

  /** What asking the stores for a component yields; a rejected one fails a check on its meta
      (gateway, schema, web interface, name against DID). */
  datatype Fetched = Missing | Rejected | Found(meta: Meta)

  /** The stores answer every configuration, the same way each time, with a fresh meta. */
  type Store = Config -> Fetched

  const MAX_ANCESTORS := 40

  /** The slot of the separate engine pass in a path; the other slots are list positions. */
  const ENGINE_SLOT := -1

  /** Where in the unfolding a component sits: the slots from the start down to it. */
  type Path = seq<int>

  /** A resolved component as pushed on the shared list. */
  datatype Entry = Entry(path: Path, config: Config, meta: Meta)

  /** The meta asks for this configuration itself or, always as required, as its engine. */
  ghost predicate Declares(meta: Meta, config: Config) {
    config in meta.components || (meta.engine == Some(config.source) && config.required)
  }

  function EngineConfigs(meta: Meta): seq<Config> {
    match meta.engine
    case None => []
    case Some(source) => [Config(source, true)]
  }

  /** `getComponentConfig`: the declared components, then the engine as one more. */
  function ComponentConfigs(meta: Meta): (configs: seq<Config>)
    ensures forall config :: config in configs <==> Declares(meta, config)
    ensures meta.components <= configs
  {
    meta.components + EngineConfigs(meta)
  }

  // ---------------------------------------------------------------- tasks and their steps

  datatype Task =
    | Resolve(config: Config, ancestors: seq<Did>, path: Path)       // waiting for its meta
    | Parse(configs: seq<Config>, ancestors: seq<Did>, path: Path)   // a call about to start
    | Then(first: Task, rest: Task)                                  // awaits `first`
    | All(tasks: seq<Task>)                                          // Promise.all

  predicate Done(t: Task) {
    t.All? && forall i :: 0 <= i < |t.tasks| ==> Done(t.tasks[i])
  }

  /** What is left to do for a component once it has been pushed. */
  function AfterPush(meta: Meta, ancestors: seq<Did>, path: Path): Task {
    var below := ancestors + [meta.bundleDid];
    var children := Parse(ComponentConfigs(meta), below, path);
    if meta.engine.None? then children
    else Then(Parse(EngineConfigs(meta), below, path + [ENGINE_SLOT]), children)
  }

  function ResolveAll(configs: seq<Config>, ancestors: seq<Did>, path: Path): seq<Task> {
    seq(|configs|, i requires 0 <= i < |configs| => Resolve(configs[i], ancestors, path + [i]))
  }

  datatype Stepped = Stuck | Failed | Moved(task: Task, pushed: seq<Entry>)

  /** One step of the task at an address: which branch of each Promise.all to follow. */
  function StepAt(store: Store, t: Task, at: seq<nat>): Stepped {
    match t
    case Resolve(config, ancestors, path) =>
      if at != [] then Stuck
      else (match store(config)
            case Missing => Failed
            case Rejected => Failed
            case Found(meta) =>
              if meta.bundleDid in ancestors then Failed
              else Moved(AfterPush(meta, ancestors, path), [Entry(path, config, meta)]))
    case Parse(configs, ancestors, path) =>
      if at != [] then Stuck
      else if |ancestors| > MAX_ANCESTORS then Failed
      else Moved(All(ResolveAll(configs, ancestors, path)), [])
    case Then(first, rest) =>
      if Done(first) then (if at == [] then Moved(rest, []) else Stuck)
      else (match StepAt(store, first, at)
            case Moved(next, pushed) => Moved(Then(next, rest), pushed)
            case other => other)
    case All(tasks) =>
      if at == [] || at[0] >= |tasks| then Stuck
      else (match StepAt(store, tasks[at[0]], at[1..])
            case Moved(next, pushed) => Moved(All(tasks[at[0] := next]), pushed)
            case other => other)
  }

  // ---------------------------------------------------------------- the unfolding

  /** What an unfolding amounts to: the components it resolves, whether it is free of errors,
      and a bound on the steps needed. */
  datatype Plan = Plan(entries: multiset<Entry>, ok: bool, steps: nat)

  const NOTHING := Plan(multiset{}, true, 0)

  function Plus(p: Plan, q: Plan): Plan {
    Plan(p.entries + q.entries, p.ok && q.ok, p.steps + q.steps)
  }

  function Sum(plans: seq<Plan>): Plan {
    if plans == [] then NOTHING else Plus(plans[0], Sum(plans[1..]))
  }

  function Headroom(ancestors: seq<Did>): nat {
    if |ancestors| > MAX_ANCESTORS then 0 else MAX_ANCESTORS + 1 - |ancestors|
  }

  function UnfoldOne(store: Store, config: Config, ancestors: seq<Did>, path: Path): Plan
    requires |ancestors| <= MAX_ANCESTORS
    decreases Headroom(ancestors), 0
  {
    match store(config)
      case Missing => Plan(multiset{}, false, 1)
      case Rejected => Plan(multiset{}, false, 1)
      case Found(meta) =>
        if meta.bundleDid in ancestors then Plan(multiset{}, false, 1)
        else Plus(Plan(multiset{Entry(path, config, meta)}, true, 1),
                  UnfoldBelow(store, meta, ancestors + [meta.bundleDid], path))
  }

  /** Below a resolved component: first its engine on its own, then all its configurations. */
  function UnfoldBelow(store: Store, meta: Meta, below: seq<Did>, path: Path): Plan
    decreases Headroom(below), |meta.components| + 4
  {
    var children := UnfoldCall(store, ComponentConfigs(meta), below, path);
    if meta.engine.None? then children
    else Plus(Plan(multiset{}, true, 1),
              Plus(UnfoldCall(store, EngineConfigs(meta), below, path + [ENGINE_SLOT]), children))
  }

  function UnfoldCall(store: Store, configs: seq<Config>, ancestors: seq<Did>, path: Path): Plan
    decreases Headroom(ancestors), |configs| + 2
  {
    if |ancestors| > MAX_ANCESTORS then Plan(multiset{}, false, 1)
    else Plus(Plan(multiset{}, true, 1), Sum(UnfoldEach(store, configs, ancestors, path)))
  }

  function UnfoldEach(store: Store, configs: seq<Config>, ancestors: seq<Did>, path: Path): seq<Plan>
    requires |ancestors| <= MAX_ANCESTORS
    decreases Headroom(ancestors), |configs| + 1
  {
    seq(|configs|, i requires 0 <= i < |configs| => UnfoldOne(store, configs[i], ancestors, path + [i]))
  }

  /** Only a call that passed the depth check waits for metas. */
  predicate Bounded(t: Task) {
    match t
    case Resolve(_, ancestors, _) => |ancestors| <= MAX_ANCESTORS
    case Parse(_, _, _) => true
    case Then(first, rest) => Bounded(first) && Bounded(rest)
    case All(tasks) => forall i :: 0 <= i < |tasks| ==> Bounded(tasks[i])
  }

  function PlanOf(store: Store, t: Task): Plan
    requires Bounded(t)
  {
    match t
    case Resolve(config, ancestors, path) => UnfoldOne(store, config, ancestors, path)
    case Parse(configs, ancestors, path) => UnfoldCall(store, configs, ancestors, path)
    case Then(first, rest) => Plus(Plan(multiset{}, true, 1), Plus(PlanOf(store, first), PlanOf(store, rest)))
    case All(tasks) => Sum(PlansOf(store, tasks))
  }

  function PlansOf(store: Store, tasks: seq<Task>): seq<Plan>
    requires forall i :: 0 <= i < |tasks| ==> Bounded(tasks[i])
  {
    seq(|tasks|, i requires 0 <= i < |tasks| => PlanOf(store, tasks[i]))
  }

  // ---------------------------------------------------------------- sums of plans

  lemma {:induction false} SumUpdate(plans: seq<Plan>, i: nat, emitted: Plan, p: Plan)
    requires i < |plans| && plans[i] == Plus(emitted, p)
    ensures Sum(plans) == Plus(emitted, Sum(plans[i := p]))
  {
    if i > 0 {
      SumUpdate(plans[1..], i - 1, emitted, p);
      assert plans[i := p][1..] == plans[1..][i - 1 := p];
    } else {
      assert plans[i := p][1..] == plans[1..];
    }
  }

  lemma {:induction false} SumIsOk(plans: seq<Plan>)
    ensures Sum(plans).ok <==> forall i :: 0 <= i < |plans| ==> plans[i].ok
  {
    if plans != [] {
      SumIsOk(plans[1..]);
      assert plans == [plans[0]] + plans[1..];
    }
  }

  lemma {:induction false} SumOfNothing(plans: seq<Plan>)
    requires forall i :: 0 <= i < |plans| ==> plans[i] == NOTHING
    ensures Sum(plans) == NOTHING
  {
    if plans != [] { SumOfNothing(plans[1..]); }
  }

  // ---------------------------------------------------------------- every step keeps the plan

  function Emitted(pushed: seq<Entry>): Plan {
    Plan(multiset(pushed), true, 1)
  }

  lemma NothingEmitted()
    ensures Emitted([]) == Plan(multiset{}, true, 1)
  {
  }

  /** A step either exposes an error of the unfolding or moves one unit of it into the list. */
  ghost predicate StepKeepsPlan(store: Store, t: Task, step: Stepped)
    requires Bounded(t)
  {
    match step
    case Stuck => true
    case Failed => !PlanOf(store, t).ok
    case Moved(next, pushed) => Bounded(next) && PlanOf(store, t) == Plus(Emitted(pushed), PlanOf(store, next))
  }

  lemma {:induction false} EveryStepKeepsPlan(store: Store, t: Task, at: seq<nat>)
    requires Bounded(t)
    ensures StepKeepsPlan(store, t, StepAt(store, t, at))
  {
    hide PlanOf, StepAt, StepKeepsPlan;
    match t
    case Resolve(config, ancestors, path) => ResolveKeepsPlan(store, config, ancestors, path, at);
    case Parse(configs, ancestors, path) => ParseKeepsPlan(store, configs, ancestors, path, at);
    case Then(first, rest) =>
      EveryStepKeepsPlan(store, first, at);
      ThenKeepsPlan(store, first, rest, at);
    case All(tasks) =>
      if at != [] && at[0] < |tasks| { EveryStepKeepsPlan(store, tasks[at[0]], at[1..]); }
      AllKeepsPlan(store, tasks, at);
  }

  lemma ThenKeepsPlan(store: Store, first: Task, rest: Task, at: seq<nat>)
    requires Bounded(Then(first, rest)) && StepKeepsPlan(store, first, StepAt(store, first, at))
    ensures StepKeepsPlan(store, Then(first, rest), StepAt(store, Then(first, rest), at))
  {
    hide UnfoldOne, UnfoldCall, PlansOf, ComponentConfigs, AfterPush, ResolveAll;
    if Done(first) {
      DoneIsNothing(store, first);
      NothingEmitted();
    }
  }

  lemma AllKeepsPlan(store: Store, tasks: seq<Task>, at: seq<nat>)
    requires Bounded(All(tasks))
    requires at != [] && at[0] < |tasks| ==> StepKeepsPlan(store, tasks[at[0]], StepAt(store, tasks[at[0]], at[1..]))
    ensures StepKeepsPlan(store, All(tasks), StepAt(store, All(tasks), at))
  {
    hide UnfoldOne, UnfoldCall, Sum;
    if at != [] && at[0] < |tasks| {
      match StepAt(store, tasks[at[0]], at[1..])
      case Stuck =>
      case Failed =>
        SumIsOk(PlansOf(store, tasks));
        assert PlansOf(store, tasks)[at[0]] == PlanOf(store, tasks[at[0]]);
      case Moved(next, pushed) => BranchMoves(store, tasks, at[0], next, Emitted(pushed));
    }
  }

  lemma ResolveKeepsPlan(store: Store, config: Config, ancestors: seq<Did>, path: Path, at: seq<nat>)
    requires |ancestors| <= MAX_ANCESTORS
    ensures StepKeepsPlan(store, Resolve(config, ancestors, path), StepAt(store, Resolve(config, ancestors, path), at))
  {
    if at == [] && store(config).Found? && store(config).meta.bundleDid !in ancestors {
      ResolveStep(store, config, ancestors, path, store(config).meta);
    }
  }

  lemma ParseKeepsPlan(store: Store, configs: seq<Config>, ancestors: seq<Did>, path: Path, at: seq<nat>)
    ensures StepKeepsPlan(store, Parse(configs, ancestors, path), StepAt(store, Parse(configs, ancestors, path), at))
  {
    if at == [] && |ancestors| <= MAX_ANCESTORS {
      assert PlansOf(store, ResolveAll(configs, ancestors, path)) == UnfoldEach(store, configs, ancestors, path);
      NothingEmitted();
    }
  }

  lemma ResolveStep(store: Store, config: Config, ancestors: seq<Did>, path: Path, meta: Meta)
    requires |ancestors| <= MAX_ANCESTORS && store(config) == Found(meta) && meta.bundleDid !in ancestors
    ensures Bounded(AfterPush(meta, ancestors, path))
    ensures UnfoldOne(store, config, ancestors, path) ==
            Plus(Emitted([Entry(path, config, meta)]), PlanOf(store, AfterPush(meta, ancestors, path)))
  {
    assert multiset([Entry(path, config, meta)]) == multiset{Entry(path, config, meta)};
  }

  lemma {:induction false} DoneIsNothing(store: Store, t: Task)
    requires Done(t)
    ensures Bounded(t) && PlanOf(store, t) == NOTHING
  {
    forall i | 0 <= i < |t.tasks|
      ensures Bounded(t.tasks[i]) && PlanOf(store, t.tasks[i]) == NOTHING
    {
      DoneIsNothing(store, t.tasks[i]);
    }
    SumOfNothing(PlansOf(store, t.tasks));
  }

  lemma BranchMoves(store: Store, tasks: seq<Task>, i: nat, next: Task, emitted: Plan)
    requires i < |tasks| && forall j :: 0 <= j < |tasks| ==> Bounded(tasks[j])
    requires Bounded(next) && PlanOf(store, tasks[i]) == Plus(emitted, PlanOf(store, next))
    ensures Sum(PlansOf(store, tasks)) == Plus(emitted, Sum(PlansOf(store, tasks[i := next])))
  {
    SumUpdate(PlansOf(store, tasks), i, emitted, PlanOf(store, next));
    assert PlansOf(store, tasks)[i := PlanOf(store, next)] == PlansOf(store, tasks[i := next]);
  }

  // ---------------------------------------------------------------- runs

  datatype State = Running(task: Task, resolved: seq<Entry>) | Aborted

  function Turn(store: Store, s: State, at: seq<nat>): State {
    if s.Aborted? then s
    else match StepAt(store, s.task, at)
      case Stuck => s
      case Failed => Aborted
      case Moved(next, pushed) => Running(next, s.resolved + pushed)
  }

  /** A run under a schedule: which task moves at each turn. A turn given to a task that cannot
      move is skipped. */
  function Run(store: Store, s: State, schedule: seq<seq<nat>>): State
    decreases |schedule|
  {
    if schedule == [] then s else Run(store, Turn(store, s, schedule[0]), schedule[1..])
  }

  /** A call of `parseComponents` on a component with these configurations. */
  function Start(configs: seq<Config>): State {
    Running(Parse(configs, [], []), [])
  }

  /** The unfolding of the store from the start. */
  function Unfolding(store: Store, configs: seq<Config>): Plan {
    UnfoldCall(store, configs, [], [])
  }

  predicate Finished(s: State) {
    s.Aborted? || Done(s.task)
  }

  /** Conservation: what is on the list plus what is left makes up the same unfolding. */
  ghost predicate Conserves(store: Store, s: State, total: Plan) {
    match s
    case Aborted => !total.ok
    case Running(task, resolved) =>
      && Bounded(task)
      && multiset(resolved) + PlanOf(store, task).entries == total.entries
      && PlanOf(store, task).ok == total.ok
      && PlanOf(store, task).steps <= total.steps
  }

  lemma TurnConserves(store: Store, s: State, at: seq<nat>, total: Plan)
    requires Conserves(store, s, total)
    ensures Conserves(store, Turn(store, s, at), total)
    ensures s.Running? && !StepAt(store, s.task, at).Stuck? && Turn(store, s, at).Running?
            ==> PlanOf(store, Turn(store, s, at).task).steps < PlanOf(store, s.task).steps
  {
    if s.Running? {
      EveryStepKeepsPlan(store, s.task, at);
    }
  }

  lemma {:induction false} RunConserves(store: Store, s: State, schedule: seq<seq<nat>>, total: Plan)
    requires Conserves(store, s, total)
    ensures Conserves(store, Run(store, s, schedule), total)
    decreases |schedule|
  {
    if schedule != [] {
      TurnConserves(store, s, schedule[0], total);
      RunConserves(store, Turn(store, s, schedule[0]), schedule[1..], total);
    }
  }

  /** For every store and every schedule: a finished run succeeded exactly when the unfolding is
      free of errors, and then the shared list holds exactly the components of the unfolding, each
      as often as it occurs there. An unfinished run never holds more. */
  lemma EveryRun(store: Store, configs: seq<Config>, schedule: seq<seq<nat>>)
    ensures var s := Run(store, Start(configs), schedule);
            && (Finished(s) ==> (s.Running? <==> Unfolding(store, configs).ok))
            && (Finished(s) && s.Running? ==> multiset(s.resolved) == Unfolding(store, configs).entries)
            && (s.Running? ==> multiset(s.resolved) <= Unfolding(store, configs).entries)
  {
    var total := Unfolding(store, configs);
    NothingEmitted();
    RunConserves(store, Start(configs), schedule, total);
    var s := Run(store, Start(configs), schedule);
    if s.Running? && Done(s.task) {
      DoneIsNothing(store, s.task);
    }
  }

  /** Two successful runs over the same store list the same components, whatever their schedules. */
  lemma SuccessfulRunsAgree(store: Store, configs: seq<Config>, one: seq<seq<nat>>, other: seq<seq<nat>>)
    requires Finished(Run(store, Start(configs), one)) && Run(store, Start(configs), one).Running?
    requires Finished(Run(store, Start(configs), other))
    ensures Run(store, Start(configs), other).Running?
    ensures multiset(Run(store, Start(configs), one).resolved) == multiset(Run(store, Start(configs), other).resolved)
  {
    EveryRun(store, configs, one);
    EveryRun(store, configs, other);
  }

  // ---------------------------------------------------------------- progress and termination

  /** Some runnable task, the leftmost one. */
  function FirstRunnable(t: Task): seq<nat>
    requires !Done(t)
    decreases t, if t.All? then |t.tasks| + 1 else 0
  {
    match t
    case Resolve(_, _, _) => []
    case Parse(_, _, _) => []
    case Then(first, _) => if Done(first) then [] else FirstRunnable(first)
    case All(tasks) => FirstRunnableIn(t, tasks, 0)
  }

  function FirstRunnableIn(t: Task, tasks: seq<Task>, from: nat): (at: seq<nat>)
    requires t == All(tasks) && from <= |tasks|
    requires exists i :: from <= i < |tasks| && !Done(tasks[i])
    ensures at != [] && at[0] < |tasks| && !Done(tasks[at[0]]) && at[1..] == FirstRunnable(tasks[at[0]])
    decreases t, |tasks| - from
  {
    if Done(tasks[from]) then FirstRunnableIn(t, tasks, from + 1)
    else [from] + FirstRunnable(tasks[from])
  }

  /** A task that is not done can always move. */
  lemma {:induction false} AlwaysRunnable(store: Store, t: Task)
    requires !Done(t)
    ensures !StepAt(store, t, FirstRunnable(t)).Stuck?
  {
    match t
    case Resolve(_, _, _) =>
    case Parse(_, _, _) =>
    case Then(first, _) => if !Done(first) { AlwaysRunnable(store, first); }
    case All(tasks) => AlwaysRunnable(store, tasks[FirstRunnable(t)[0]]);
  }

  /** How many turns of a run move a task. */
  function Moves(store: Store, s: State, schedule: seq<seq<nat>>): nat
    decreases |schedule|
  {
    if schedule == [] then 0
    else (if s.Running? && StepAt(store, s.task, schedule[0]).Moved? then 1 else 0)
         + Moves(store, Turn(store, s, schedule[0]), schedule[1..])
  }

  /** Termination on every store, cyclic or infinite: no schedule makes more moves than the
      unfolding, cut off at the depth limit, has steps. */
  lemma MovesAreBounded(store: Store, configs: seq<Config>, schedule: seq<seq<nat>>)
    ensures Moves(store, Start(configs), schedule) <= Unfolding(store, configs).steps
  {
    NothingEmitted();
    MovesUseSteps(store, Start(configs), schedule, Unfolding(store, configs));
  }

  lemma {:induction false} MovesUseSteps(store: Store, s: State, schedule: seq<seq<nat>>, total: Plan)
    requires Conserves(store, s, total)
    ensures Moves(store, s, schedule) <= if s.Running? then PlanOf(store, s.task).steps else 0
    decreases |schedule|
  {
    if schedule != [] {
      TurnConserves(store, s, schedule[0], total);
      MovesUseSteps(store, Turn(store, s, schedule[0]), schedule[1..], total);
    }
  }

  // ---------------------------------------------------------------- components before their descendants

  ghost predicate PathIn(resolved: seq<Entry>, p: Path) {
    exists i :: 0 <= i < |resolved| && resolved[i].path == p
  }

  /** Every component on the way down the path, its end included, is on the list. The slot of an
      engine pass is not a component. */
  ghost predicate Covered(resolved: seq<Entry>, p: Path) {
    forall n {:trigger p[..n]} :: 0 < n <= |p| && p[n - 1] != ENGINE_SLOT ==> PathIn(resolved, p[..n])
  }

  ghost predicate AncestorsListed(resolved: seq<Entry>, p: Path) {
    p != [] && Covered(resolved, p[..|p| - 1])
  }

  /** Each component comes after all its own ancestors. */
  ghost predicate AncestorsFirst(resolved: seq<Entry>) {
    forall j :: 0 <= j < |resolved| ==> AncestorsListed(resolved[..j], resolved[j].path)
  }

  ghost predicate Ready(resolved: seq<Entry>, t: Task) {
    match t
    case Resolve(_, _, path) => AncestorsListed(resolved, path)
    case Parse(_, _, path) => Covered(resolved, path)
    case Then(first, rest) => Ready(resolved, first) && Ready(resolved, rest)
    case All(tasks) => forall i :: 0 <= i < |tasks| ==> Ready(resolved, tasks[i])
  }

  lemma CoveredGrows(resolved: seq<Entry>, pushed: seq<Entry>, p: Path)
    requires Covered(resolved, p)
    ensures Covered(resolved + pushed, p)
  {
    forall n {:trigger p[..n]} | 0 < n <= |p| && p[n - 1] != ENGINE_SLOT
      ensures PathIn(resolved + pushed, p[..n])
    {
      assert PathIn(resolved, p[..n]);
      var i :| 0 <= i < |resolved| && resolved[i].path == p[..n];
      assert (resolved + pushed)[i].path == p[..n];
    }
  }

  lemma {:induction false} ReadyGrows(resolved: seq<Entry>, pushed: seq<Entry>, t: Task)
    requires Ready(resolved, t)
    ensures Ready(resolved + pushed, t)
  {
    match t
    case Resolve(_, _, path) => CoveredGrows(resolved, pushed, path[..|path| - 1]);
    case Parse(_, _, path) => CoveredGrows(resolved, pushed, path);
    case Then(first, rest) =>
      ReadyGrows(resolved, pushed, first);
      ReadyGrows(resolved, pushed, rest);
    case All(tasks) =>
      forall i | 0 <= i < |tasks|
        ensures Ready(resolved + pushed, tasks[i])
      {
        ReadyGrows(resolved, pushed, tasks[i]);
      }
  }

  lemma CoveredOneMore(resolved: seq<Entry>, p: Path, slot: int)
    requires Covered(resolved, p)
    requires slot == ENGINE_SLOT || PathIn(resolved, p + [slot])
    ensures Covered(resolved, p + [slot])
  {
    var q := p + [slot];
    forall n {:trigger q[..n]} | 0 < n <= |q| && q[n - 1] != ENGINE_SLOT
      ensures PathIn(resolved, q[..n])
    {
      if n <= |p| {
        assert q[..n] == p[..n];
      } else {
        assert q[..n] == q;
      }
    }
  }

  lemma AfterPushReady(resolved: seq<Entry>, config: Config, meta: Meta, ancestors: seq<Did>, path: Path)
    requires AncestorsListed(resolved, path)
    ensures Ready(resolved + [Entry(path, config, meta)], AfterPush(meta, ancestors, path))
  {
    var entry := Entry(path, config, meta);
    var grown := resolved + [entry];
    var p, slot := path[..|path| - 1], path[|path| - 1];
    CoveredGrows(resolved, [entry], p);
    assert path == p + [slot];
    assert grown[|resolved|].path == path;
    CoveredOneMore(grown, p, slot);
    CoveredOneMore(grown, path, ENGINE_SLOT);
  }

  lemma ResolveAllReady(resolved: seq<Entry>, configs: seq<Config>, ancestors: seq<Did>, path: Path)
    requires Covered(resolved, path)
    ensures Ready(resolved, All(ResolveAll(configs, ancestors, path)))
  {
    forall i | 0 <= i < |configs|
      ensures AncestorsListed(resolved, path + [i])
    {
      assert (path + [i])[..|path + [i]| - 1] == path;
    }
  }

  lemma {:induction false} StepKeepsReady(store: Store, resolved: seq<Entry>, t: Task, at: seq<nat>)
    requires Ready(resolved, t) && StepAt(store, t, at).Moved?
    ensures var step := StepAt(store, t, at);
            && Ready(resolved + step.pushed, step.task)
            && (step.pushed == [] || (|step.pushed| == 1 && AncestorsListed(resolved, step.pushed[0].path)))
  {
    match t
    case Resolve(config, ancestors, path) =>
      AfterPushReady(resolved, config, store(config).meta, ancestors, path);
    case Parse(configs, ancestors, path) =>
      ResolveAllReady(resolved, configs, ancestors, path);
      assert resolved + [] == resolved;
    case Then(first, rest) =>
      if Done(first) {
        assert resolved + [] == resolved;
      } else {
        StepKeepsReady(store, resolved, first, at);
        ReadyGrows(resolved, StepAt(store, first, at).pushed, rest);
      }
    case All(tasks) =>
      var step := StepAt(store, tasks[at[0]], at[1..]);
      StepKeepsReady(store, resolved, tasks[at[0]], at[1..]);
      forall i | 0 <= i < |tasks| && i != at[0]
        ensures Ready(resolved + step.pushed, tasks[i])
      {
        ReadyGrows(resolved, step.pushed, tasks[i]);
      }
  }

  lemma {:induction false} RunKeepsOrder(store: Store, s: State, schedule: seq<seq<nat>>)
    requires s.Running? ==> Ready(s.resolved, s.task) && AncestorsFirst(s.resolved)
    ensures var end := Run(store, s, schedule); end.Running? ==> AncestorsFirst(end.resolved)
    decreases |schedule|
  {
    if schedule != [] {
      if s.Running? && StepAt(store, s.task, schedule[0]).Moved? {
        StepKeepsReady(store, s.resolved, s.task, schedule[0]);
        OneMoreInOrder(s.resolved, StepAt(store, s.task, schedule[0]).pushed);
      }
      RunKeepsOrder(store, Turn(store, s, schedule[0]), schedule[1..]);
    }
  }

  lemma OneMoreInOrder(resolved: seq<Entry>, pushed: seq<Entry>)
    requires AncestorsFirst(resolved)
    requires pushed == [] || (|pushed| == 1 && AncestorsListed(resolved, pushed[0].path))
    ensures AncestorsFirst(resolved + pushed)
  {
    var grown := resolved + pushed;
    forall j | 0 <= j < |grown|
      ensures AncestorsListed(grown[..j], grown[j].path)
    {
      assert grown[..j] == resolved[..j];
      if j == |resolved| { assert resolved[..j] == resolved; }
    }
  }

  /** At every moment of every run, under any schedule, each component on the list comes after all
      its own ancestors. */
  lemma AncestorsAlwaysFirst(store: Store, configs: seq<Config>, schedule: seq<seq<nat>>)
    ensures var s := Run(store, Start(configs), schedule);
            s.Running? ==> AncestorsFirst(s.resolved)
  {
    RunKeepsOrder(store, Start(configs), schedule);
  }

  // ---------------------------------------------------------------- when a resolution succeeds

  /** A way down the dependency graph: each configuration is declared by the one before it. */
  ghost predicate Chain(store: Store, configs: seq<Config>, chain: seq<Config>) {
    && chain != []
    && chain[0] in configs
    && forall i :: 0 <= i < |chain| - 1 ==>
         store(chain[i]).Found? && Declares(store(chain[i]).meta, chain[i + 1])
  }

  function BundleDid(store: Store, config: Config): Did
    requires store(config).Found?
  {
    store(config).meta.bundleDid
  }

  /** Every component on the chain is found, none repeats a bundle DID of the ancestors or of the
      chain, and the last one sits no deeper than the limit. */
  ghost predicate GoodChain(store: Store, ancestors: seq<Did>, chain: seq<Config>) {
    && |ancestors| + |chain| <= 40
    && (forall i :: 0 <= i < |chain| ==> store(chain[i]).Found? && BundleDid(store, chain[i]) !in ancestors)
    && (forall i, j :: 0 <= i < j < |chain| ==> BundleDid(store, chain[i]) != BundleDid(store, chain[j]))
  }

  /** One configuration resolves without error when it is found, is new on the way down, and both
      passes below it succeed. */
  lemma OneIsOk(store: Store, config: Config, ancestors: seq<Did>, path: Path)
    requires |ancestors| <= MAX_ANCESTORS
    ensures UnfoldOne(store, config, ancestors, path).ok <==>
            && store(config).Found?
            && BundleDid(store, config) !in ancestors
            && var meta, below := store(config).meta, ancestors + [BundleDid(store, config)];
               && (meta.engine.Some? ==> UnfoldCall(store, EngineConfigs(meta), below, path + [ENGINE_SLOT]).ok)
               && UnfoldCall(store, ComponentConfigs(meta), below, path).ok
  {
  }

  ghost predicate AllChainsGood(store: Store, configs: seq<Config>, ancestors: seq<Did>) {
    forall chain :: Chain(store, configs, chain) ==> GoodChain(store, ancestors, chain)
  }

  lemma {:induction false} OkMeansGoodChains(store: Store, configs: seq<Config>, ancestors: seq<Did>, path: Path,
                                             chain: seq<Config>)
    requires UnfoldCall(store, configs, ancestors, path).ok && Chain(store, configs, chain)
    ensures GoodChain(store, ancestors, chain)
    decreases |chain|
  {
    SumIsOk(UnfoldEach(store, configs, ancestors, path));
    var i :| 0 <= i < |configs| && configs[i] == chain[0];
    assert UnfoldEach(store, configs, ancestors, path)[i] == UnfoldOne(store, configs[i], ancestors, path + [i]);
    OneIsOk(store, configs[i], ancestors, path + [i]);
    var meta := store(chain[0]).meta;
    var below := ancestors + [meta.bundleDid];
    if |chain| > 1 {
      var rest := chain[1..];
      assert Chain(store, ComponentConfigs(meta), rest) by {
        assert rest[0] == chain[0 + 1];
        forall k | 0 <= k < |rest| - 1
          ensures store(rest[k]).Found? && rest[k + 1] in ComponentConfigs(store(rest[k]).meta)
        {
          assert rest[k] == chain[k + 1] && rest[k + 1] == chain[(k + 1) + 1];
        }
      }
      OkMeansGoodChains(store, ComponentConfigs(meta), below, path + [i], rest);
      GoodChainExtends(store, ancestors, chain);
    }
  }

  lemma GoodChainExtends(store: Store, ancestors: seq<Did>, chain: seq<Config>)
    requires chain != [] && store(chain[0]).Found? && BundleDid(store, chain[0]) !in ancestors
    ensures GoodChain(store, ancestors + [BundleDid(store, chain[0])], chain[1..])
            ==> GoodChain(store, ancestors, chain)
  {
    var b := BundleDid(store, chain[0]);
    var rest := chain[1..];
    if GoodChain(store, ancestors + [b], rest) {
      forall i | 0 <= i < |chain|
        ensures store(chain[i]).Found? && BundleDid(store, chain[i]) !in ancestors
        ensures i > 0 ==> BundleDid(store, chain[i]) != b
      {
        if i > 0 { assert chain[i] == rest[i - 1]; }
      }
      forall i, j | 0 <= i < j < |chain|
        ensures BundleDid(store, chain[i]) != BundleDid(store, chain[j])
      {
        if i > 0 { assert chain[i] == rest[i - 1] && chain[j] == rest[j - 1]; }
      }
    }
  }

  lemma GoodChainShrinks(store: Store, ancestors: seq<Did>, config: Config, rest: seq<Config>)
    requires GoodChain(store, ancestors, [config] + rest)
    ensures store(config).Found? && GoodChain(store, ancestors + [BundleDid(store, config)], rest)
  {
    var chain := [config] + rest;
    assert chain[0] == config;
    assert forall i :: 0 <= i < |rest| ==> rest[i] == chain[i + 1];
  }

  lemma {:induction false} GoodChainsMeanOk(store: Store, configs: seq<Config>, ancestors: seq<Did>, path: Path)
    requires |ancestors| <= MAX_ANCESTORS && AllChainsGood(store, configs, ancestors)
    ensures UnfoldCall(store, configs, ancestors, path).ok
    decreases Headroom(ancestors)
  {
    SumIsOk(UnfoldEach(store, configs, ancestors, path));
    forall i | 0 <= i < |configs|
      ensures UnfoldEach(store, configs, ancestors, path)[i].ok
    {
      OneOfGoodChains(store, configs, ancestors, configs[i]);
      var meta := store(configs[i]).meta;
      var below := ancestors + [meta.bundleDid];
      GoodChainsMeanOk(store, ComponentConfigs(meta), below, path + [i]);
      GoodChainsMeanOk(store, EngineConfigs(meta), below, path + [i] + [ENGINE_SLOT]);
      OneIsOk(store, configs[i], ancestors, path + [i]);
    }
  }

  lemma OneOfGoodChains(store: Store, configs: seq<Config>, ancestors: seq<Did>, config: Config)
    requires AllChainsGood(store, configs, ancestors) && config in configs
    ensures store(config).Found? && BundleDid(store, config) !in ancestors && |ancestors| < MAX_ANCESTORS
    ensures var meta, below := store(config).meta, ancestors + [BundleDid(store, config)];
            AllChainsGood(store, ComponentConfigs(meta), below) && AllChainsGood(store, EngineConfigs(meta), below)
  {
    assert Chain(store, configs, [config]);
    assert GoodChain(store, ancestors, [config]) && [config][0] == config;
    ChainsBelow(store, configs, ancestors, config);
    EngineChains(store, store(config).meta, ancestors + [BundleDid(store, config)]);
  }

  lemma ChainsBelow(store: Store, configs: seq<Config>, ancestors: seq<Did>, config: Config)
    requires AllChainsGood(store, configs, ancestors) && config in configs && store(config).Found?
    ensures AllChainsGood(store, ComponentConfigs(store(config).meta), ancestors + [BundleDid(store, config)])
  {
    forall rest | Chain(store, ComponentConfigs(store(config).meta), rest)
      ensures GoodChain(store, ancestors + [BundleDid(store, config)], rest)
    {
      var chain := [config] + rest;
      assert Chain(store, configs, chain);
      GoodChainShrinks(store, ancestors, config, rest);
    }
  }

  lemma EngineChains(store: Store, meta: Meta, below: seq<Did>)
    requires AllChainsGood(store, ComponentConfigs(meta), below)
    ensures AllChainsGood(store, EngineConfigs(meta), below)
  {
    forall chain | Chain(store, EngineConfigs(meta), chain)
      ensures GoodChain(store, below, chain)
    {
      assert Chain(store, ComponentConfigs(meta), chain);
    }
  }

  /** A resolution succeeds, under any schedule, exactly when every way down the dependency graph
      meets only components that can be fetched and pass their checks, repeats no bundle DID (the
      starting component not counted) and is at most 40 long. */
  lemma SucceedsExactlyWhen(store: Store, configs: seq<Config>, schedule: seq<seq<nat>>)
    requires Finished(Run(store, Start(configs), schedule))
    ensures Run(store, Start(configs), schedule).Running? <==>
            forall chain :: Chain(store, configs, chain) ==> GoodChain(store, [], chain)
  {
    EveryRun(store, configs, schedule);
    if Unfolding(store, configs).ok {
      forall chain | Chain(store, configs, chain)
        ensures GoodChain(store, [], chain)
      {
        OkMeansGoodChains(store, configs, [], [], chain);
      }
    }
    if AllChainsGood(store, configs, []) {
      GoodChainsMeanOk(store, configs, [], []);
    }
  }

  lemma {:induction false} SumContains(plans: seq<Plan>, i: nat, e: Entry)
    requires i < |plans| && e in plans[i].entries
    ensures e in Sum(plans).entries
  {
    if i > 0 { SumContains(plans[1..], i - 1, e); }
  }

  lemma CallContains(store: Store, configs: seq<Config>, ancestors: seq<Did>, path: Path, i: nat)
    requires UnfoldCall(store, configs, ancestors, path).ok && i < |configs|
    ensures store(configs[i]).Found?
    ensures Entry(path + [i], configs[i], store(configs[i]).meta) in UnfoldCall(store, configs, ancestors, path).entries
  {
    var plans := UnfoldEach(store, configs, ancestors, path);
    SumIsOk(plans);
    assert plans[i] == UnfoldOne(store, configs[i], ancestors, path + [i]);
    OneIsOk(store, configs[i], ancestors, path + [i]);
    SumContains(plans, i, Entry(path + [i], configs[i], store(configs[i]).meta));
  }

  /** The components a resolved component declares are listed at their places in its declaration. */
  lemma DeclaredListedInPlace(store: Store, config: Config, ancestors: seq<Did>, path: Path, i: nat)
    requires |ancestors| <= MAX_ANCESTORS && UnfoldOne(store, config, ancestors, path).ok
    requires store(config).Found? && i < |store(config).meta.components|
    ensures var declared := store(config).meta.components[i];
            && store(declared).Found?
            && Entry(path + [i], declared, store(declared).meta) in UnfoldOne(store, config, ancestors, path).entries
  {
    var meta := store(config).meta;
    OneIsOk(store, config, ancestors, path);
    CallContains(store, ComponentConfigs(meta), ancestors + [meta.bundleDid], path, i);
  }

  /** The blocklet engine of a resolved component is resolved twice: in the pass of its own and
      again as the last of the component's configurations. */
  lemma EngineResolvedTwice(store: Store, config: Config, ancestors: seq<Did>, path: Path)
    requires |ancestors| <= MAX_ANCESTORS && UnfoldOne(store, config, ancestors, path).ok
    requires store(config).Found? && store(config).meta.engine.Some?
    ensures var meta := store(config).meta;
            var engine := Config(meta.engine.value, true);
            && store(engine).Found?
            && var entries := UnfoldOne(store, config, ancestors, path).entries;
               && Entry(path + [ENGINE_SLOT] + [0], engine, store(engine).meta) in entries
               && Entry(path + [|meta.components|], engine, store(engine).meta) in entries
  {
    var meta := store(config).meta;
    var below := ancestors + [meta.bundleDid];
    OneIsOk(store, config, ancestors, path);
    CallContains(store, EngineConfigs(meta), below, path + [ENGINE_SLOT], 0);
    CallContains(store, ComponentConfigs(meta), below, path, |meta.components|);
  }

  // ---------------------------------------------------------------- the event loop

  /** The event loop that runs the continuations and the list they share. */
  class EventLoop {
    const store: Store
    var state: State

    constructor (store: Store, configs: seq<Config>)
      ensures this.store == store && state == Start(configs)
    {
      this.store := store;
      this.state := Start(configs);
    }

    /** Runs until nothing is left to run. `pick` chooses the task of each turn; when it names one
        that cannot move, the leftmost runnable task moves instead. */
    method Drain(configs: seq<Config>, pick: State -> seq<nat>) returns (result: Option<seq<Entry>>)
      requires state == Start(configs)
      modifies this
      ensures Finished(state)
      ensures result.Some? <==> Unfolding(store, configs).ok
      ensures result.Some? ==> multiset(result.value) == Unfolding(store, configs).entries
    {
      ghost var total := Unfolding(store, configs);
      NothingEmitted();
      while !Finished(state)
        invariant Conserves(store, state, total)
        decreases if state.Aborted? then 0 else 1 + PlanOf(store, state.task).steps
      {
        var at := pick(state);
        if StepAt(store, state.task, at).Stuck? {
          at := FirstRunnable(state.task);
          AlwaysRunnable(store, state.task);
        }
        TurnConserves(store, state, at, total);
        state := Turn(store, state, at);
      }
      if state.Aborted? {
        return None;
      }
      DoneIsNothing(store, state.task);
      result := Some(state.resolved);
    }
  }

  // ---------------------------------------------------------------- one version per component

  predicate Mentions(entries: seq<Entry>, did: Did) {
    exists i :: 0 <= i < |entries| && entries[i].meta.did == did
  }

  /** Keeps the earlier entry unless the later one with its DID has a lower version. */
  function KeepMinimum(kept: seq<Entry>, entry: Entry): seq<Entry> {
    if kept == [] then [entry]
    else if kept[0].meta.did != entry.meta.did then [kept[0]] + KeepMinimum(kept[1..], entry)
    else if Lt(entry.meta.version, kept[0].meta.version) then [entry] + kept[1..]
    else kept
  }

  function Selected(entries: seq<Entry>, currents: seq<Entry>): seq<Entry> {
    if entries == [] then []
    else
      var kept := Selected(entries[..|entries| - 1], currents);
      var last := entries[|entries| - 1];
      if Mentions(currents, last.meta.did) then kept else KeepMinimum(kept, last)
  }

  lemma {:induction false} KeepMinimumAt(kept: seq<Entry>, entry: Entry, index: nat)
    requires index <= |kept|
    requires forall i :: 0 <= i < index ==> kept[i].meta.did != entry.meta.did
    requires index < |kept| ==> kept[index].meta.did == entry.meta.did
    ensures KeepMinimum(kept, entry) ==
            if index == |kept| then kept + [entry]
            else if Lt(entry.meta.version, kept[index].meta.version) then kept[index := entry]
            else kept
  {
    if kept != [] && index > 0 {
      KeepMinimumAt(kept[1..], entry, index - 1);
      assert kept == [kept[0]] + kept[1..];
    }
  }

  method FilterDuplicateComponents(components: seq<Entry>, currents: seq<Entry> := []) returns (arr: seq<Entry>)
    ensures arr == Selected(components, currents)
  {
    arr := [];
    for n := 0 to |components|
      invariant arr == Selected(components[..n], currents)
    {
      var component := components[n];
      assert components[..n + 1][..n] == components[..n] && components[..n + 1][n] == component;
      if !Mentions(currents, component.meta.did) {
        var index := 0;
        while index < |arr| && arr[index].meta.did != component.meta.did
          invariant 0 <= index <= |arr|
          invariant forall i :: 0 <= i < index ==> arr[i].meta.did != component.meta.did
        {
          index := index + 1;
        }
        KeepMinimumAt(arr, component, index);
        if index < |arr| {
          if Lt(component.meta.version, arr[index].meta.version) {
            arr := arr[index := component];
          }
        } else {
          arr := arr + [component];
        }
      }
    }
    assert components[..|components|] == components;
  }

  ghost predicate OnePerDid(kept: seq<Entry>) {
    forall i, j :: 0 <= i < j < |kept| ==> kept[i].meta.did != kept[j].meta.did
  }

  /** No other entry with this DID has a lower version, and no earlier one has the same. */
  ghost predicate LeastAt(entries: seq<Entry>, k: nat)
    requires k < |entries|
  {
    forall j :: 0 <= j < |entries| && j != k && entries[j].meta.did == entries[k].meta.did ==>
      if j < k then Precedes(entries[k].meta.version, entries[j].meta.version)
      else !Precedes(entries[j].meta.version, entries[k].meta.version)
  }

  ghost predicate EarliestLeast(entries: seq<Entry>, x: Entry) {
    exists k :: 0 <= k < |entries| && entries[k] == x && LeastAt(entries, k)
  }

  /** The first DID is mentioned before any entry with the other. */
  ghost predicate MentionedFirst(entries: seq<Entry>, did: Did, other: Did) {
    exists k :: 0 <= k < |entries| && entries[k].meta.did == did && !Mentions(entries[..k + 1], other)
  }

  /** One entry for each DID that is listed and not yet current: the earliest of its least version;
      the DIDs in the order in which they are first listed. */
  ghost predicate MinimalSelection(kept: seq<Entry>, entries: seq<Entry>, currents: seq<Entry>) {
    && OnePerDid(kept)
    && (forall did :: Mentions(kept, did) <==> Mentions(entries, did) && !Mentions(currents, did))
    && (forall i :: 0 <= i < |kept| ==> EarliestLeast(entries, kept[i]))
    && (forall i, j :: 0 <= i < j < |kept| ==> MentionedFirst(entries, kept[i].meta.did, kept[j].meta.did))
  }

  lemma {:induction false} SelectedIsMinimal(entries: seq<Entry>, currents: seq<Entry>)
    ensures MinimalSelection(Selected(entries, currents), entries, currents)
  {
    if entries != [] {
      var before, last := entries[..|entries| - 1], entries[|entries| - 1];
      assert entries == before + [last];
      SelectedIsMinimal(before, currents);
      OneMoreSelected(Selected(before, currents), before, last, currents);
    }
  }

  lemma MentionsOneMore(entries: seq<Entry>, last: Entry, did: Did)
    ensures Mentions(entries + [last], did) <==> Mentions(entries, did) || last.meta.did == did
  {
    var grown := entries + [last];
    assert grown[|entries|] == last;
    if i :| 0 <= i < |entries| && entries[i].meta.did == did { assert grown[i].meta.did == did; }
  }

  lemma OneMoreSelected(kept: seq<Entry>, before: seq<Entry>, last: Entry, currents: seq<Entry>)
    requires MinimalSelection(kept, before, currents)
    ensures MinimalSelection(if Mentions(currents, last.meta.did) then kept else KeepMinimum(kept, last),
                             before + [last], currents)
  {
    hide EarliestLeast, MentionedFirst, Lt;
    var did := last.meta.did;
    forall d
      ensures Mentions(before + [last], d) <==> Mentions(before, d) || did == d
    {
      MentionsOneMore(before, last, d);
    }
    OrderStays(kept, before, last, currents);
    if Mentions(currents, did) {
      forall i | 0 <= i < |kept|
        ensures EarliestLeast(before + [last], kept[i])
      {
        assert Mentions(kept, kept[i].meta.did);
        LeastStays(before, last, kept[i]);
      }
    } else if index :| 0 <= index < |kept| && kept[index].meta.did == did {
      KeepMinimumAt(kept, last, index);
      ReplaceSelected(kept, before, last, currents, index);
    } else {
      KeepMinimumAt(kept, last, |kept|);
      AppendSelected(kept, before, last, currents);
    }
  }

  /** Another entry at the end changes neither where a DID is first mentioned nor which entry of
      another DID is the least. */
  lemma FirstStays(before: seq<Entry>, last: Entry, did: Did, other: Did)
    requires MentionedFirst(before, did, other)
    ensures MentionedFirst(before + [last], did, other)
  {
    var k :| 0 <= k < |before| && before[k].meta.did == did && !Mentions(before[..k + 1], other);
    assert (before + [last])[..k + 1] == before[..k + 1];
  }

  lemma OrderStays(kept: seq<Entry>, before: seq<Entry>, last: Entry, currents: seq<Entry>)
    requires MinimalSelection(kept, before, currents)
    ensures forall i, j :: 0 <= i < j < |kept| ==>
              MentionedFirst(before + [last], kept[i].meta.did, kept[j].meta.did)
  {
    hide MentionedFirst, EarliestLeast;
    forall i, j | 0 <= i < j < |kept|
      ensures MentionedFirst(before + [last], kept[i].meta.did, kept[j].meta.did)
    {
      FirstStays(before, last, kept[i].meta.did, kept[j].meta.did);
    }
  }

  lemma LeastStays(before: seq<Entry>, last: Entry, x: Entry)
    requires EarliestLeast(before, x)
    requires x.meta.did == last.meta.did ==> !Precedes(last.meta.version, x.meta.version)
    ensures EarliestLeast(before + [last], x)
  {
    hide Precedes;
    var k :| 0 <= k < |before| && before[k] == x && LeastAt(before, k);
    assert LeastAt(before + [last], k);
  }

  lemma AppendSelected(kept: seq<Entry>, before: seq<Entry>, last: Entry, currents: seq<Entry>)
    requires MinimalSelection(kept, before, currents)
    requires !Mentions(currents, last.meta.did) && !Mentions(kept, last.meta.did)
    ensures MinimalSelection(kept + [last], before + [last], currents)
  {
    hide Precedes, EarliestLeast, MentionedFirst;
    var all := before + [last];
    forall d
      ensures Mentions(all, d) <==> Mentions(before, d) || last.meta.did == d
      ensures Mentions(kept + [last], d) <==> Mentions(kept, d) || last.meta.did == d
    {
      MentionsOneMore(before, last, d);
      MentionsOneMore(kept, last, d);
    }
    assert !Mentions(before, last.meta.did);
    OrderStays(kept, before, last, currents);
    forall i | 0 <= i < |kept|
      ensures EarliestLeast(all, kept[i]) && MentionedFirst(all, kept[i].meta.did, last.meta.did)
    {
      assert kept[i].meta.did != last.meta.did && Mentions(kept, kept[i].meta.did);
      LeastStays(before, last, kept[i]);
      NewIsMentionedLast(before, last, kept[i].meta.did);
    }
    LastIsLeast(before, last);
  }

  lemma NewIsMentionedLast(before: seq<Entry>, last: Entry, did: Did)
    requires Mentions(before, did) && !Mentions(before, last.meta.did)
    ensures MentionedFirst(before + [last], did, last.meta.did)
  {
    var k :| 0 <= k < |before| && before[k].meta.did == did;
    assert (before + [last])[k].meta.did == did && (before + [last])[..k + 1] == before[..k + 1];
  }

  /** An entry that is lower than all before it with its DID is the earliest least one. */
  lemma LastIsLeast(before: seq<Entry>, last: Entry)
    requires forall j :: 0 <= j < |before| && before[j].meta.did == last.meta.did ==>
               Precedes(last.meta.version, before[j].meta.version)
    ensures EarliestLeast(before + [last], last)
  {
    hide Precedes;
    var all := before + [last];
    assert all[|before|] == last && LeastAt(all, |before|);
  }

  lemma ReplaceSelected(kept: seq<Entry>, before: seq<Entry>, last: Entry, currents: seq<Entry>, index: nat)
    requires MinimalSelection(kept, before, currents)
    requires index < |kept| && kept[index].meta.did == last.meta.did
    ensures MinimalSelection(if Lt(last.meta.version, kept[index].meta.version) then kept[index := last] else kept,
                             before + [last], currents)
  {
    hide Lt, Precedes, EarliestLeast, MentionedFirst;
    var lower := Lt(last.meta.version, kept[index].meta.version);
    ComparisonIsPrecedence(last.meta.version, kept[index].meta.version);
    var after := if lower then kept[index := last] else kept;
    assert forall i :: 0 <= i < |kept| ==> after[i].meta.did == kept[i].meta.did;
    forall d
      ensures Mentions(before + [last], d) <==> Mentions(before, d) || last.meta.did == d
      ensures Mentions(after, d) <==> Mentions(kept, d)
    {
      MentionsOneMore(before, last, d);
      if i :| 0 <= i < |kept| && kept[i].meta.did == d { assert after[i].meta.did == d; }
    }
    assert Mentions(kept, last.meta.did);
    OrderStays(kept, before, last, currents);
    forall i | 0 <= i < |after|
      ensures EarliestLeast(before + [last], after[i])
    {
      if i == index && lower {
        LowerThanLeast(before, last, kept[index]);
      } else {
        assert i != index ==> kept[i].meta.did != last.meta.did;
        LeastStays(before, last, kept[i]);
      }
    }
  }

  lemma LowerThanLeast(before: seq<Entry>, last: Entry, least: Entry)
    requires EarliestLeast(before, least) && least.meta.did == last.meta.did
    requires Precedes(last.meta.version, least.meta.version)
    ensures EarliestLeast(before + [last], last)
  {
    hide Precedes;
    var k :| 0 <= k < |before| && before[k] == least && LeastAt(before, k);
    forall j | 0 <= j < |before| && before[j].meta.did == last.meta.did
      ensures Precedes(last.meta.version, before[j].meta.version)
    {
      if j < k { PrecedesOnlyOneWay(least.meta.version, before[j].meta.version); }
      if j != k { LowerIsBelow(last.meta.version, least.meta.version, before[j].meta.version); }
    }
    LastIsLeast(before, last);
  }

  lemma PrecedesOnlyOneWay(a: Version, b: Version)
    requires Precedes(a, b)
    ensures !Precedes(b, a)
  {
    hide Precedes;
    ComparisonIsPrecedence(a, b);
    ComparisonIsPrecedence(b, a);
    PrecedenceFlips(a, b);
  }

  lemma LowerIsBelow(low: Version, high: Version, x: Version)
    requires Precedes(low, high) && !Precedes(x, high)
    ensures Precedes(low, x)
  {
    hide Precedes;
    ComparisonIsPrecedence(low, high);
    ComparisonIsPrecedence(x, high);
    ComparisonIsPrecedence(low, x);
    if !Lt(low, x) { PrecedenceTransitive(high, x, low); }
  }

  /** Whatever their order, the same components yield the same DIDs, each with the same version up to
      its build metadata. */
  lemma SelectionIgnoresOrder(one: seq<Entry>, other: seq<Entry>, currents: seq<Entry>)
    requires multiset(one) == multiset(other)
    ensures var a, b := Selected(one, currents), Selected(other, currents);
            && (forall did :: Mentions(a, did) <==> Mentions(b, did))
            && (forall i, j :: 0 <= i < |a| && 0 <= j < |b| && a[i].meta.did == b[j].meta.did
                 ==> SameButBuild(a[i].meta.version, b[j].meta.version))
  {
    hide EarliestLeast, MentionedFirst, SameButBuild, Selected;
    SelectedIsMinimal(one, currents);
    SelectedIsMinimal(other, currents);
    var a, b := Selected(one, currents), Selected(other, currents);
    SameMentions(one, other);
    forall i, j | 0 <= i < |a| && 0 <= j < |b| && a[i].meta.did == b[j].meta.did
      ensures SameButBuild(a[i].meta.version, b[j].meta.version)
    {
      assert EarliestLeast(one, a[i]) && EarliestLeast(other, b[j]);
      LeastsAgree(one, other, a[i], b[j]);
    }
  }

  lemma SameMentions(one: seq<Entry>, other: seq<Entry>)
    requires multiset(one) == multiset(other)
    ensures forall did :: Mentions(one, did) <==> Mentions(other, did)
  {
    assert forall x :: x in one <==> x in multiset(one);
    assert forall x :: x in other <==> x in multiset(other);
    assert forall i :: 0 <= i < |one| ==> one[i] in other;
    assert forall i :: 0 <= i < |other| ==> other[i] in one;
  }

  lemma LeastsAgree(one: seq<Entry>, other: seq<Entry>, x: Entry, y: Entry)
    requires multiset(one) == multiset(other)
    requires EarliestLeast(one, x) && EarliestLeast(other, y) && x.meta.did == y.meta.did
    ensures SameButBuild(x.meta.version, y.meta.version)
  {
    hide LeastAt, SameButBuild, Precedes;
    assert x in multiset(one) && y in multiset(other);
    LeastIsNotAbove(one, x, y);
    LeastIsNotAbove(other, y, x);
    NeitherPrecedes(x.meta.version, y.meta.version);
  }

  lemma LeastIsNotAbove(entries: seq<Entry>, least: Entry, x: Entry)
    requires EarliestLeast(entries, least) && x in entries && x.meta.did == least.meta.did
    ensures !Precedes(x.meta.version, least.meta.version)
  {
    hide Precedes;
    var k :| 0 <= k < |entries| && entries[k] == least && LeastAt(entries, k);
    var j :| 0 <= j < |entries| && entries[j] == x;
    if j < k { PrecedesOnlyOneWay(least.meta.version, x.meta.version); }
    if j == k { NeverBeforeItself(x.meta.version); }
  }

  lemma NeverBeforeItself(v: Version)
    ensures !Precedes(v, v)
  {
    if Precedes(v, v) { PrecedesOnlyOneWay(v, v); }
  }

  lemma NeitherPrecedes(a: Version, b: Version)
    requires !Precedes(a, b) && !Precedes(b, a)
    ensures SameButBuild(a, b)
  {
    hide Precedes;
    ComparisonIsPrecedence(a, b);
    ComparisonIsPrecedence(b, a);
    PrecedenceFlips(a, b);
  }

  /** Under any two schedules of a successful resolution, the filtered components are the same DIDs
      with the same versions up to their build metadata. */
  lemma ScheduleDoesNotMatter(store: Store, configs: seq<Config>, one: seq<seq<nat>>, other: seq<seq<nat>>,
                              currents: seq<Entry>)
    requires Finished(Run(store, Start(configs), one)) && Run(store, Start(configs), one).Running?
    requires Finished(Run(store, Start(configs), other))
    ensures Run(store, Start(configs), other).Running?
    ensures var a := Selected(Run(store, Start(configs), one).resolved, currents);
            var b := Selected(Run(store, Start(configs), other).resolved, currents);
            && (forall did :: Mentions(a, did) <==> Mentions(b, did))
            && (forall i, j :: 0 <= i < |a| && 0 <= j < |b| && a[i].meta.did == b[j].meta.did
                 ==> SameButBuild(a[i].meta.version, b[j].meta.version))
  {
    SuccessfulRunsAgree(store, configs, one, other);
    SelectionIgnoresOrder(Run(store, Start(configs), one).resolved, Run(store, Start(configs), other).resolved,
                          currents);
  }
}
