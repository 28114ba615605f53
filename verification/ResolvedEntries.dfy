/** What a resolution lists, entry by entry: each way down the dependency graph ends in an entry of
    its own, and nothing else is listed. */
module ResolvedEntries {

  import opened Common
  import opened Resolver

  // ---------------------------------------------------------------- entries and ways down

  ghost predicate EndsIn(store: Store, configs: seq<Config>, chain: seq<Config>, config: Config) {
    Chain(store, configs, chain) && chain[|chain| - 1] == config
  }

  /** Some way down ends in the configuration. */
  ghost predicate Reached(store: Store, configs: seq<Config>, config: Config) {
    exists chain :: EndsIn(store, configs, chain, config)
  }

  /** An entry lists the configuration, with the meta the store has for it. */
  ghost predicate ListedIn(store: Store, entries: multiset<Entry>, config: Config) {
    exists e :: e in entries && e.config == config && store(config) == Found(e.meta)
  }

  lemma {:induction false} SumOrigin(plans: seq<Plan>, e: Entry) returns (i: nat)
    requires e in Sum(plans).entries
    ensures i < |plans| && e in plans[i].entries
  {
    if e in plans[0].entries {
      i := 0;
    } else {
      var j := SumOrigin(plans[1..], e);
      i := j + 1;
    }
  }

  lemma ChainOfOne(store: Store, configs: seq<Config>, config: Config)
    requires config in configs
    ensures Reached(store, configs, config)
  {
    assert EndsIn(store, configs, [config], config);
  }

  /** A way down from a component's configurations is one from the component itself. */
  lemma ChainGrows(store: Store, configs: seq<Config>, head: Config, config: Config)
    requires head in configs && store(head).Found? && Reached(store, ComponentConfigs(store(head).meta), config)
    ensures Reached(store, configs, config)
  {
    var rest :| EndsIn(store, ComponentConfigs(store(head).meta), rest, config);
    var chain := [head] + rest;
    forall i | 0 <= i < |chain| - 1
      ensures store(chain[i]).Found? && chain[i + 1] in ComponentConfigs(store(chain[i]).meta)
    {
      assert chain[i + 1] == rest[i];
      if i > 0 { assert chain[i] == rest[i - 1] && rest[(i - 1) + 1] == rest[i]; }
    }
    assert EndsIn(store, configs, chain, config);
  }

  lemma EngineIsAComponent(store: Store, meta: Meta, config: Config)
    requires Reached(store, EngineConfigs(meta), config)
    ensures Reached(store, ComponentConfigs(meta), config)
  {
    var chain :| EndsIn(store, EngineConfigs(meta), chain, config);
    assert EndsIn(store, ComponentConfigs(meta), chain, config);
  }

  /** Whatever an unfolding lists is at the end of some way down. */
  lemma {:induction false} EntryIsReached(store: Store, configs: seq<Config>, ancestors: seq<Did>, path: Path, e: Entry)
    requires e in UnfoldCall(store, configs, ancestors, path).entries
    ensures store(e.config) == Found(e.meta) && Reached(store, configs, e.config)
    decreases Headroom(ancestors)
  {
    hide Reached, UnfoldOne, ComponentConfigs, EngineConfigs;
    var plans := UnfoldEach(store, configs, ancestors, path);
    var i := SumOrigin(plans, e);
    assert plans[i] == UnfoldOne(store, configs[i], ancestors, path + [i]);
    OneOrigin(store, configs[i], ancestors, path + [i], e);
    var meta := store(configs[i]).meta;
    var below := ancestors + [meta.bundleDid];
    if e == Entry(path + [i], configs[i], meta) {
      ChainOfOne(store, configs, configs[i]);
    } else if e in UnfoldCall(store, ComponentConfigs(meta), below, path + [i]).entries {
      EntryIsReached(store, ComponentConfigs(meta), below, path + [i], e);
      ChainGrows(store, configs, configs[i], e.config);
    } else {
      EntryIsReached(store, EngineConfigs(meta), below, path + [i] + [ENGINE_SLOT], e);
      EngineIsAComponent(store, meta, e.config);
      ChainGrows(store, configs, configs[i], e.config);
    }
  }

  /** An entry of one configuration's unfolding is its own, or comes from one of the passes below. */
  lemma OneOrigin(store: Store, config: Config, ancestors: seq<Did>, path: Path, e: Entry)
    requires |ancestors| <= MAX_ANCESTORS && e in UnfoldOne(store, config, ancestors, path).entries
    ensures store(config).Found?
    ensures var meta, below := store(config).meta, ancestors + [store(config).meta.bundleDid];
            || e == Entry(path, config, meta)
            || e in UnfoldCall(store, ComponentConfigs(meta), below, path).entries
            || e in UnfoldCall(store, EngineConfigs(meta), below, path + [ENGINE_SLOT]).entries
  {
    hide UnfoldCall;
  }

  /** In an unfolding without errors, whatever is at the end of a way down is listed. */
  lemma {:induction false} ReachedIsEntry(store: Store, configs: seq<Config>, ancestors: seq<Did>, path: Path,
                                          chain: seq<Config>)
    requires UnfoldCall(store, configs, ancestors, path).ok && Chain(store, configs, chain)
    ensures ListedIn(store, UnfoldCall(store, configs, ancestors, path).entries, chain[|chain| - 1])
    decreases |chain|
  {
    var i :| 0 <= i < |configs| && configs[i] == chain[0];
    CallContains(store, configs, ancestors, path, i);
    if |chain| > 1 {
      ChainBelow(store, configs, chain);
      OneContains(store, configs, ancestors, path, i);
      var meta := store(configs[i]).meta;
      var below := ancestors + [meta.bundleDid];
      ReachedIsEntry(store, ComponentConfigs(meta), below, path + [i], chain[1..]);
      hide UnfoldCall, ComponentConfigs, Chain;
    }
  }

  lemma ChainBelow(store: Store, configs: seq<Config>, chain: seq<Config>)
    requires Chain(store, configs, chain) && |chain| > 1
    ensures store(chain[0]).Found? && Chain(store, ComponentConfigs(store(chain[0]).meta), chain[1..])
  {
    var rest := chain[1..];
    assert rest[0] == chain[0 + 1];
    forall k | 0 <= k < |rest| - 1
      ensures store(rest[k]).Found? && rest[k + 1] in ComponentConfigs(store(rest[k]).meta)
    {
      assert rest[k] == chain[k + 1] && rest[k + 1] == chain[(k + 1) + 1];
    }
  }

  /** What the configurations of one component list is listed. */
  lemma OneContains(store: Store, configs: seq<Config>, ancestors: seq<Did>, path: Path, i: nat)
    requires UnfoldCall(store, configs, ancestors, path).ok && i < |configs| && store(configs[i]).Found?
    ensures var meta := store(configs[i]).meta;
            var inner := UnfoldCall(store, ComponentConfigs(meta), ancestors + [meta.bundleDid], path + [i]);
            inner.ok && forall e :: e in inner.entries ==> e in UnfoldCall(store, configs, ancestors, path).entries
  {
    var plans := UnfoldEach(store, configs, ancestors, path);
    var meta := store(configs[i]).meta;
    var inner := UnfoldCall(store, ComponentConfigs(meta), ancestors + [meta.bundleDid], path + [i]);
    SumIsOk(plans);
    assert plans[i] == UnfoldOne(store, configs[i], ancestors, path + [i]);
    OneIsOk(store, configs[i], ancestors, path + [i]);
    forall e | e in inner.entries
      ensures e in Sum(plans).entries
    {
      SumContains(plans, i, e);
    }
  }

  /** A successful resolution lists a configuration, with its meta, if and only if some way down the
      dependency graph ends in it. */
  lemma ListedExactlyWhenReached(store: Store, configs: seq<Config>, schedule: seq<seq<nat>>, config: Config)
    requires Finished(Run(store, Start(configs), schedule)) && Run(store, Start(configs), schedule).Running?
    ensures ListedIn(store, multiset(Run(store, Start(configs), schedule).resolved), config)
       <==> Reached(store, configs, config)
  {
    EveryRun(store, configs, schedule);
    hide Run;
    var entries := Unfolding(store, configs).entries;
    if ListedIn(store, entries, config) {
      var e :| e in entries && e.config == config && store(config) == Found(e.meta);
      EntryIsReached(store, configs, [], [], e);
    }
    if Reached(store, configs, config) {
      var chain :| EndsIn(store, configs, chain, config);
      ReachedIsEntry(store, configs, [], [], chain);
    }
  }

  // ---------------------------------------------------------------- paths

  /** No entry occurs twice, and no two share a path. */
  ghost predicate PathsDiffer(entries: multiset<Entry>) {
    forall e, f :: e in entries && f in entries && e.path == f.path ==> e == f && entries[e] == 1
  }

  /** All paths go beyond this depth, by these slots. */
  ghost predicate Through(entries: multiset<Entry>, depth: nat, low: int, high: int) {
    forall e :: e in entries ==> |e.path| > depth && low <= e.path[depth] < high
  }

  ghost predicate AllExtend(entries: multiset<Entry>, path: Path) {
    forall e :: e in entries ==> path <= e.path
  }

  lemma DifferApart(a: multiset<Entry>, b: multiset<Entry>, depth: nat, low: int, middle: int, high: int)
    requires PathsDiffer(a) && PathsDiffer(b) && low <= middle <= high
    requires Through(a, depth, low, middle) && Through(b, depth, middle, high)
    ensures PathsDiffer(a + b) && Through(a + b, depth, low, high)
  {
    forall e, f | e in a + b && f in a + b && e.path == f.path
      ensures e == f && (a + b)[e] == 1
    {
      assert e in a <==> f in a;
      assert !(e in a && e in b);
    }
  }

  lemma {:induction false} SumDiffers(plans: seq<Plan>, depth: nat, first: int)
    requires forall i :: 0 <= i < |plans| ==>
      PathsDiffer(plans[i].entries) && Through(plans[i].entries, depth, first + i, first + i + 1)
    ensures PathsDiffer(Sum(plans).entries) && Through(Sum(plans).entries, depth, first, first + |plans|)
    decreases |plans|
  {
    hide PathsDiffer, Through;
    if plans == [] {
      NothingDiffers(depth, first);
    } else {
      forall i | 0 <= i < |plans[1..]|
        ensures PathsDiffer(plans[1..][i].entries)
        ensures Through(plans[1..][i].entries, depth, first + 1 + i, first + 1 + i + 1)
      {
        assert plans[1..][i] == plans[i + 1];
      }
      SumDiffers(plans[1..], depth, first + 1);
      assert Through(plans[0].entries, depth, first + 0, first + 0 + 1);
      DifferApart(plans[0].entries, Sum(plans[1..]).entries, depth, first, first + 1, first + |plans|);
    }
  }

  lemma NothingDiffers(depth: nat, first: int)
    ensures PathsDiffer(multiset{}) && Through(multiset{}, depth, first, first)
  {
  }

  /** The entries of a call differ in their paths, and go through the slots of its configurations. */
  lemma {:induction false} CallDiffers(store: Store, configs: seq<Config>, ancestors: seq<Did>, path: Path)
    ensures var entries := UnfoldCall(store, configs, ancestors, path).entries;
            PathsDiffer(entries) && AllExtend(entries, path) && Through(entries, |path|, 0, |configs|)
    decreases Headroom(ancestors), |configs| + 2
  {
    if |ancestors| <= MAX_ANCESTORS {
      var plans := UnfoldEach(store, configs, ancestors, path);
      forall i | 0 <= i < |plans|
        ensures PathsDiffer(plans[i].entries) && Through(plans[i].entries, |path|, 0 + i, 0 + i + 1)
        ensures AllExtend(plans[i].entries, path)
      {
        OneDiffers(store, configs[i], ancestors, path + [i]);
        ExtendsThrough(plans[i].entries, path, i);
      }
      SumDiffers(plans, |path|, 0);
      SumExtends(plans, path);
      hide PathsDiffer, Through, AllExtend, UnfoldEach;
    }
  }

  lemma ExtendsThrough(entries: multiset<Entry>, path: Path, slot: int)
    requires AllExtend(entries, path + [slot])
    ensures Through(entries, |path|, slot, slot + 1) && AllExtend(entries, path)
  {
    forall e | e in entries
      ensures |e.path| > |path| && e.path[|path|] == slot && path <= e.path
    {
      assert path + [slot] <= e.path;
      assert e.path[..|path| + 1] == path + [slot];
    }
  }

  lemma {:induction false} SumExtends(plans: seq<Plan>, path: Path)
    requires forall i :: 0 <= i < |plans| ==> AllExtend(plans[i].entries, path)
    ensures AllExtend(Sum(plans).entries, path)
  {
    if plans != [] {
      SumExtends(plans[1..], path);
    }
  }

  lemma {:induction false} OneDiffers(store: Store, config: Config, ancestors: seq<Did>, path: Path)
    requires |ancestors| <= MAX_ANCESTORS
    ensures var entries := UnfoldOne(store, config, ancestors, path).entries;
            PathsDiffer(entries) && AllExtend(entries, path)
    decreases Headroom(ancestors), 0
  {
    if store(config).Found? && store(config).meta.bundleDid !in ancestors {
      var meta := store(config).meta;
      BelowDiffers(store, meta, ancestors + [meta.bundleDid], path);
      HeadApart(Entry(path, config, meta), UnfoldBelow(store, meta, ancestors + [meta.bundleDid], path).entries);
      hide PathsDiffer, AllExtend, UnfoldBelow;
    }
  }

  /** A component's own path is shorter than those below it. */
  lemma HeadApart(head: Entry, below: multiset<Entry>)
    requires PathsDiffer(below) && AllExtend(below, head.path)
    requires forall e :: e in below ==> |e.path| > |head.path|
    ensures PathsDiffer(multiset{head} + below) && AllExtend(multiset{head} + below, head.path)
  {
  }

  lemma {:induction false} BelowDiffers(store: Store, meta: Meta, below: seq<Did>, path: Path)
    ensures var entries := UnfoldBelow(store, meta, below, path).entries;
            && PathsDiffer(entries) && AllExtend(entries, path)
            && forall e :: e in entries ==> |e.path| > |path|
    decreases Headroom(below), |meta.components| + 4
  {
    hide PathsDiffer, UnfoldCall;
    var children := UnfoldCall(store, ComponentConfigs(meta), below, path).entries;
    CallDiffers(store, ComponentConfigs(meta), below, path);
    if meta.engine.Some? {
      var engine := UnfoldCall(store, EngineConfigs(meta), below, path + [ENGINE_SLOT]).entries;
      CallDiffers(store, EngineConfigs(meta), below, path + [ENGINE_SLOT]);
      ExtendsThrough(engine, path, ENGINE_SLOT);
      DifferApart(engine, children, |path|, ENGINE_SLOT, 0, |ComponentConfigs(meta)|);
      assert UnfoldBelow(store, meta, below, path).entries == engine + children;
    } else {
      assert UnfoldBelow(store, meta, below, path).entries == children;
    }
  }

  lemma TwiceListed<T>(s: seq<T>, i: nat, j: nat)
    requires i < j < |s|
    ensures s[i] == s[j] ==> multiset(s)[s[i]] >= 2
  {
    assert s == s[..j] + [s[j]] + s[j + 1..];
    assert s[i] in multiset(s[..j]) by { assert s[..j][i] == s[i]; }
  }

  lemma PathsDifferInList(resolved: seq<Entry>, total: multiset<Entry>, i: nat, j: nat)
    requires PathsDiffer(total) && multiset(resolved) <= total && i < j < |resolved|
    ensures resolved[i].path != resolved[j].path
  {
    TwiceListed(resolved, i, j);
    assert resolved[i] in multiset(resolved) && resolved[j] in multiset(resolved);
  }

  /** In every run, at every moment, no two listed entries share a path: every way down is listed
      once. */
  lemma NoTwoSharePath(store: Store, configs: seq<Config>, schedule: seq<seq<nat>>, i: nat, j: nat)
    requires Run(store, Start(configs), schedule).Running?
    requires i < j < |Run(store, Start(configs), schedule).resolved|
    ensures Run(store, Start(configs), schedule).resolved[i].path
            != Run(store, Start(configs), schedule).resolved[j].path
  {
    EveryRun(store, configs, schedule);
    CallDiffers(store, configs, [], []);
    hide Run, UnfoldCall, PathsDiffer;
    PathsDifferInList(Run(store, Start(configs), schedule).resolved, Unfolding(store, configs).entries, i, j);
  }
}
