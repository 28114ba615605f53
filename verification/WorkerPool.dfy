/** The test runner's pool (tools/bun-test-isolated.js, `runChunks`): a bounded number of workers
    take files from a shared index until there are none left or one of them fails. */
module WorkerPool {

  import opened Common

  datatype Worker =
    | Ready                // not called yet
    | Running(file: nat)   // waiting for the file's tests
    | Stopped

  /** How a file ended; abandoned is one that ends after another has failed. */
  datatype Outcome = Passed | Failed | Abandoned

  datatype State = State(files: nat, index: nat, passed: nat, failed: nat, hasFailed: bool, exited: bool,
                         workers: seq<Worker>, outcomes: map<nat, Outcome>)

  /** A worker is called, a worker's file ends, or the process exits after a failure. */
  datatype Event = Launch(worker: nat) | Settle(worker: nat, ok: bool) | Exit

  function Min(a: nat, b: nat): nat {
    if a < b then a else b
  }

  function Start(files: nat, maxConcurrency: nat): State {
    State(files, 0, 0, 0, false, false, seq(Min(maxConcurrency, files), i => Ready), map[])
  }

  // ---------------------------------------------------------------- the steps

  /** `runNext` up to its first wait. */
  function RunNext(s: State, w: nat): State
    requires w < |s.workers|
  {
    if s.hasFailed || s.index >= s.files then s.(workers := s.workers[w := Stopped])
    else s.(index := s.index + 1, workers := s.workers[w := Running(s.index)])
  }

  /** The rest of `runNext`, when the worker's file has ended. */
  function Settled(s: State, w: nat, ok: bool): State
    requires w < |s.workers| && s.workers[w].Running?
  {
    var file := s.workers[w].file;
    if s.hasFailed then s.(workers := s.workers[w := Stopped], outcomes := s.outcomes[file := Abandoned])
    else if ok then RunNext(s.(passed := s.passed + 1, outcomes := s.outcomes[file := Passed]), w)
    else s.(hasFailed := true, failed := s.failed + 1, workers := s.workers[w := Stopped],
            outcomes := s.outcomes[file := Failed])
  }

  predicate Enabled(s: State, e: Event) {
    !s.exited &&
    match e
    case Launch(w) => w < |s.workers| && s.workers[w].Ready?
    case Settle(w, ok) => w < |s.workers| && s.workers[w].Running?
    case Exit => s.hasFailed
  }

  function Next(s: State, e: Event): State {
    if !Enabled(s, e) then s
    else
      match e
      case Launch(w) => RunNext(s, w)
      case Settle(w, ok) => Settled(s, w, ok)
      case Exit => s.(exited := true)
  }

  function Run(s: State, events: seq<Event>): State
    decreases |events|
  {
    if events == [] then s else Run(Next(s, events[0]), events[1..])
  }

  // ---------------------------------------------------------------- what every run keeps

  predicate IsRunning(s: State, w: int, file: int) {
    0 <= w < |s.workers| && s.workers[w].Running? && s.workers[w].file == file
  }

  /** Every file taken is in the hands of exactly one worker or has ended, and none of the others is. */
  ghost predicate TakenOnce(s: State) {
    && s.index <= s.files
    && (forall w, file :: IsRunning(s, w, file) ==> 0 <= file < s.index && file !in s.outcomes)
    && (forall v, w, file :: IsRunning(s, v, file) && IsRunning(s, w, file) ==> v == w)
    && (forall file :: file in s.outcomes ==> file < s.index)
    && (forall file :: 0 <= file < s.index && file !in s.outcomes ==> InHand(s, file))
  }

  ghost predicate InHand(s: State, file: int) {
    exists w :: IsRunning(s, w, file)
  }

  ghost function Ended(s: State, outcome: Outcome): set<nat> {
    set file | file in s.outcomes && s.outcomes[file] == outcome
  }

  /** The counters count, at most one file fails, and files are abandoned only after that. */
  ghost predicate Counted(s: State) {
    && s.passed == |Ended(s, Passed)|
    && s.failed == |Ended(s, Failed)| == (if s.hasFailed then 1 else 0)
    && (!s.hasFailed ==> Ended(s, Abandoned) == {})
  }

  /** No worker stops while there are files left and none has failed. */
  ghost predicate NobodyIdles(s: State) {
    !s.hasFailed && s.index < s.files ==> forall w :: 0 <= w < |s.workers| ==> !s.workers[w].Stopped?
  }

  ghost predicate Invariant(s: State) {
    TakenOnce(s) && Counted(s) && NobodyIdles(s) && (s.exited ==> s.hasFailed)
  }

  lemma HandKept(s: State, t: State, file: int, w: nat)
    requires InHand(s, file) && !IsRunning(s, w, file) && |t.workers| == |s.workers|
    requires forall v :: 0 <= v < |s.workers| && v != w ==> t.workers[v] == s.workers[v]
    ensures InHand(t, file)
  {
    var v :| IsRunning(s, v, file);
    assert IsRunning(t, v, file);
  }

  lemma RunNextTakesOnce(s: State, w: nat)
    requires TakenOnce(s) && w < |s.workers| && !s.workers[w].Running?
    ensures TakenOnce(RunNext(s, w))
  {
    hide InHand;
    var t := RunNext(s, w);
    assert forall v, file :: v != w ==> (IsRunning(t, v, file) <==> IsRunning(s, v, file));
    forall file | 0 <= file < t.index && file !in t.outcomes
      ensures InHand(t, file)
    {
      if file < s.index {
        HandKept(s, t, file, w);
      } else {
        TakenNow(s, w);
      }
    }
  }

  lemma TakenNow(s: State, w: nat)
    requires w < |s.workers| && !s.hasFailed && s.index < s.files
    ensures InHand(RunNext(s, w), s.index)
  {
    assert IsRunning(RunNext(s, w), w, s.index);
  }

  /** Handing back a file that has ended. */
  lemma EndTakesOnce(s: State, w: nat, outcome: Outcome)
    requires TakenOnce(s) && w < |s.workers| && s.workers[w].Running?
    ensures TakenOnce(s.(workers := s.workers[w := Stopped], outcomes := s.outcomes[s.workers[w].file := outcome]))
  {
    hide InHand;
    var file := s.workers[w].file;
    assert IsRunning(s, w, file);
    var t := s.(workers := s.workers[w := Stopped], outcomes := s.outcomes[file := outcome]);
    assert forall v, f :: IsRunning(t, v, f) <==> v != w && IsRunning(s, v, f);
    forall f | 0 <= f < t.index && f !in t.outcomes
      ensures InHand(t, f)
    {
      HandKept(s, t, f, w);
    }
  }

  lemma SettledTakesOnce(s: State, w: nat, ok: bool)
    requires TakenOnce(s) && w < |s.workers| && s.workers[w].Running?
    ensures TakenOnce(Settled(s, w, ok))
  {
    hide TakenOnce;
    var file := s.workers[w].file;
    EndTakesOnce(s, w, if s.hasFailed then Abandoned else if ok then Passed else Failed);
    if !s.hasFailed && ok {
      var freed := s.(workers := s.workers[w := Stopped], outcomes := s.outcomes[file := Passed]);
      RunNextTakesOnce(freed.(passed := s.passed + 1), w) by { SameHands(freed, s.passed + 1, s.failed, s.hasFailed); }
      assert s.workers[w := Stopped][w := Stopped] == s.workers[w := Stopped];
      assert s.workers[w := Stopped][w := Running(s.index)] == s.workers[w := Running(s.index)];
    } else {
      SameHands(s.(workers := s.workers[w := Stopped],
                   outcomes := s.outcomes[file := if s.hasFailed then Abandoned else Failed]),
                s.passed, if s.hasFailed then s.failed else s.failed + 1, true);
    }
  }

  lemma SameHands(s: State, passed: nat, failed: nat, hasFailed: bool)
    requires TakenOnce(s)
    ensures TakenOnce(s.(passed := passed, failed := failed, hasFailed := hasFailed))
  {
    var t := s.(passed := passed, failed := failed, hasFailed := hasFailed);
    assert forall w, file :: IsRunning(t, w, file) <==> IsRunning(s, w, file);
    forall file | 0 <= file < t.index && file !in t.outcomes
      ensures InHand(t, file)
    {
      assert InHand(s, file);
      var w :| IsRunning(s, w, file);
      assert IsRunning(t, w, file);
    }
  }

  lemma EndedGrows(s: State, t: State, file: nat, outcome: Outcome, any: Outcome)
    requires file !in s.outcomes && t.outcomes == s.outcomes[file := outcome]
    ensures Ended(t, any) == if any == outcome then Ended(s, any) + {file} else Ended(s, any)
    ensures |Ended(t, any)| == if any == outcome then |Ended(s, any)| + 1 else |Ended(s, any)|
  {
    assert Ended(t, any) == if any == outcome then Ended(s, any) + {file} else Ended(s, any);
    assert file !in Ended(s, any);
  }

  lemma RunningIsNotEnded(s: State, w: nat)
    requires TakenOnce(s) && w < |s.workers| && s.workers[w].Running?
    ensures s.workers[w].file !in s.outcomes
  {
    assert IsRunning(s, w, s.workers[w].file);
  }

  lemma SettledCounts(s: State, w: nat, ok: bool)
    requires TakenOnce(s) && Counted(s) && w < |s.workers| && s.workers[w].Running?
    ensures Counted(Settled(s, w, ok))
  {
    hide TakenOnce, Ended;
    var t := Settled(s, w, ok);
    var file := s.workers[w].file;
    RunningIsNotEnded(s, w);
    var outcome := if s.hasFailed then Abandoned else if ok then Passed else Failed;
    EndedGrows(s, t, file, outcome, Passed);
    EndedGrows(s, t, file, outcome, Failed);
    EndedGrows(s, t, file, outcome, Abandoned);
  }

  lemma NextKeeps(s: State, e: Event)
    requires Invariant(s)
    ensures Invariant(Next(s, e))
  {
    hide TakenOnce, Counted;
    if Enabled(s, e) {
      match e {
        case Launch(w) =>
          RunNextTakesOnce(s, w);
          SameCounts(s, RunNext(s, w));
        case Settle(w, ok) =>
          SettledTakesOnce(s, w, ok);
          SettledCounts(s, w, ok);
        case Exit =>
          SameCounts(s, s.(exited := true));
          ExitTakesOnce(s);
      }
    }
  }

  lemma SameCounts(s: State, t: State)
    requires Counted(s)
    requires t.outcomes == s.outcomes && t.passed == s.passed && t.failed == s.failed && t.hasFailed == s.hasFailed
    ensures Counted(t)
  {
    assert forall o :: Ended(t, o) == Ended(s, o);
  }

  lemma ExitTakesOnce(s: State)
    requires TakenOnce(s)
    ensures TakenOnce(s.(exited := true))
  {
    var t := s.(exited := true);
    assert forall w, file :: IsRunning(t, w, file) <==> IsRunning(s, w, file);
    forall file | 0 <= file < t.index && file !in t.outcomes
      ensures InHand(t, file)
    {
      assert InHand(s, file);
      var w :| IsRunning(s, w, file);
      assert IsRunning(t, w, file);
    }
  }

  lemma StartKeeps(files: nat, maxConcurrency: nat)
    ensures Invariant(Start(files, maxConcurrency))
  {
    var s := Start(files, maxConcurrency);
    assert forall o :: Ended(s, o) == {};
  }

  lemma {:induction false} RunKeeps(s: State, events: seq<Event>)
    requires Invariant(s)
    ensures Invariant(Run(s, events)) && |Run(s, events).workers| == |s.workers| && Run(s, events).files == s.files
    decreases |events|
  {
    hide Invariant;
    if events != [] {
      NextKeeps(s, events[0]);
      RunKeeps(Next(s, events[0]), events[1..]);
    }
  }

  // ---------------------------------------------------------------- what the runs come to

  ghost function InFlight(s: State): set<nat> {
    set w | 0 <= w < |s.workers| && s.workers[w].Running? :: s.workers[w].file
  }

  ghost function Upto(n: nat): (range: set<nat>)
    ensures |range| == n && forall i :: i in range <==> 0 <= i < n
  {
    if n == 0 then {} else Upto(n - 1) + {n - 1}
  }

  lemma SubsetSize(a: set<nat>, b: set<nat>)
    requires a <= b
    ensures |a| <= |b|
  {
    assert b == a + (b - a);
  }

  lemma FilesOfWorkers(workers: seq<Worker>)
    ensures |set w | 0 <= w < |workers| && workers[w].Running? :: workers[w].file| <= |workers|
  {
    if workers != [] {
      var n := |workers| - 1;
      FilesOfWorkers(workers[..n]);
      var before := set w | 0 <= w < |workers[..n]| && workers[..n][w].Running? :: workers[..n][w].file;
      var all := set w | 0 <= w < |workers| && workers[w].Running? :: workers[w].file;
      assert all == if workers[n].Running? then before + {workers[n].file} else before;
    }
  }

  /** In every run, at most `maxConcurrency` files are in flight; a file is taken at most once, and
      every file taken is in flight or has ended; at most one fails; and without a failure no worker
      stops while there are files left, nor does the process exit. */
  lemma EveryRun(files: nat, maxConcurrency: nat, events: seq<Event>)
    ensures var s := Run(Start(files, maxConcurrency), events);
            && |InFlight(s)| <= maxConcurrency && |InFlight(s)| <= files
            && (|s.workers| == maxConcurrency || |s.workers| == files)
            && TakenOnce(s) && Counted(s) && NobodyIdles(s)
            && s.failed <= 1 && (s.exited ==> s.failed == 1)
  {
    StartKeeps(files, maxConcurrency);
    RunKeeps(Start(files, maxConcurrency), events);
    FilesOfWorkers(Run(Start(files, maxConcurrency), events).workers);
  }

  predicate Finished(s: State) {
    forall w :: 0 <= w < |s.workers| ==> s.workers[w].Stopped?
  }

  /** When all workers have stopped, every file has passed exactly once if and only if none failed;
      otherwise exactly one failed. */
  lemma FinishedMeansAll(files: nat, maxConcurrency: nat, events: seq<Event>)
    requires maxConcurrency > 0 && Finished(Run(Start(files, maxConcurrency), events))
    ensures var s := Run(Start(files, maxConcurrency), events);
            && (!s.hasFailed <==> forall file :: 0 <= file < files ==> file in s.outcomes && s.outcomes[file] == Passed)
            && (!s.hasFailed <==> s.passed == files)
            && (s.hasFailed <==> s.failed == 1)
  {
    StartKeeps(files, maxConcurrency);
    RunKeeps(Start(files, maxConcurrency), events);
    var s := Run(Start(files, maxConcurrency), events);
    hide Run;
    NobodyLeft(s);
    if !s.hasFailed {
      AllEnded(s);
      assert Ended(s, Passed) == Upto(files);
    } else {
      assert Ended(s, Failed) != {};
      var file :| file in Ended(s, Failed);
      assert Ended(s, Passed) <= Upto(files) - {file};
      SubsetSize(Ended(s, Passed), Upto(files) - {file});
    }
  }

  lemma NobodyLeft(s: State)
    requires TakenOnce(s) && Finished(s)
    ensures forall file :: 0 <= file < s.index ==> file in s.outcomes
  {
    forall file | 0 <= file < s.index
      ensures file in s.outcomes
    {
      assert !InHand(s, file);
    }
  }

  lemma AllEnded(s: State)
    requires Invariant(s) && Finished(s) && !s.hasFailed && (s.files > 0 ==> |s.workers| > 0)
    ensures forall file :: 0 <= file < s.files ==> file in s.outcomes && s.outcomes[file] == Passed
  {
    NobodyLeft(s);
    assert |s.workers| > 0 ==> s.workers[0].Stopped?;
    assert s.index >= s.files;
    forall file | 0 <= file < s.files
      ensures s.outcomes[file] == Passed
    {
      assert file in Ended(s, s.outcomes[file]);
    }
  }

  /** After a failure nothing more is started, and the counters stay. */
  lemma {:induction false} FailureStopsThePool(s: State, events: seq<Event>)
    requires s.hasFailed
    ensures var t := Run(s, events);
            && t.hasFailed && t.index == s.index && t.passed == s.passed && t.failed == s.failed
            && InFlight(t) <= InFlight(s)
    decreases |events|
  {
    if events != [] {
      var t := Next(s, events[0]);
      assert InFlight(t) <= InFlight(s);
      FailureStopsThePool(t, events[1..]);
    }
  }

  function Weight(w: Worker): nat {
    match w case Ready => 2 case Running(_) => 1 case Stopped => 0
  }

  function Weights(workers: seq<Worker>): nat {
    if workers == [] then 0 else Weight(workers[0]) + Weights(workers[1..])
  }

  /** What is left to do. */
  function Work(s: State): nat
    requires s.index <= s.files
  {
    2 * (s.files - s.index) + Weights(s.workers) + if s.exited then 0 else 1
  }

  lemma {:induction false} WeightsChange(workers: seq<Worker>, w: nat, worker: Worker)
    requires w < |workers|
    ensures Weights(workers[w := worker]) == Weights(workers) - Weight(workers[w]) + Weight(worker)
    decreases |workers|
  {
    var changed := workers[w := worker];
    if w == 0 {
      assert changed[1..] == workers[1..];
    } else {
      assert changed[1..] == workers[1..][w - 1 := worker];
      WeightsChange(workers[1..], w - 1, worker);
    }
  }

  /** Every step that can be taken leaves less to do, so the pool comes to an end; and until all
      workers have stopped or the process has exited there is a step to take. */
  lemma StepsRunOut(s: State, e: Event)
    requires s.index <= s.files
    ensures Next(s, e).index <= Next(s, e).files
    ensures Enabled(s, e) ==> Work(Next(s, e)) < Work(s)
    ensures !s.exited && !Finished(s) ==> exists next :: Enabled(s, next)
  {
    if Enabled(s, e) && !e.Exit? {
      WeightsChange(s.workers, e.worker, Stopped);
      WeightsChange(s.workers, e.worker, Running(s.index));
    }
    if !s.exited && !Finished(s) {
      var w :| 0 <= w < |s.workers| && !s.workers[w].Stopped?;
      assert Enabled(s, Launch(w)) || Enabled(s, Settle(w, true));
    }
  }

  // ---------------------------------------------------------------- the code

  /** `runChunks` with its shared variables; which file ends next, and how, is left open. */
  class ChunkRun {
    const files: nat
    var index: nat
    var passed: nat
    var failed: nat
    var hasFailed: bool
    var exited: bool
    var workers: seq<Worker>
    ghost var outcomes: map<nat, Outcome>

    ghost function Value(): State
      reads this
    {
      State(files, index, passed, failed, hasFailed, exited, workers, outcomes)
    }

    constructor (files: nat, maxConcurrency: nat)
      ensures Value() == Start(files, maxConcurrency)
    {
      this.files := files;
      index, passed, failed, hasFailed, exited := 0, 0, 0, false, false;
      workers := seq(Min(maxConcurrency, files), i => Ready);
      outcomes := map[];
    }

    method NextIndex() returns (i: int)
      modifies `index
      ensures old(index) < files ==> i == old(index) && index == old(index) + 1
      ensures old(index) >= files ==> i == -1 && index == old(index)
    {
      if index >= files {
        return -1;
      }
      i := index;
      index := index + 1;
    }

    method CallRunNext(w: nat)
      requires w < |workers|
      modifies `index, `workers
      ensures Value() == RunNext(old(Value()), w)
    {
      if hasFailed {
        workers := workers[w := Stopped];
        return;
      }
      var current := NextIndex();
      workers := workers[w := if current == -1 then Stopped else Running(current)];
    }

    method EndFile(w: nat, ok: bool)
      requires w < |workers| && workers[w].Running?
      modifies `index, `workers, `passed, `failed, `hasFailed, `outcomes
      ensures Value() == Settled(old(Value()), w, ok)
    {
      ghost var file := workers[w].file;
      if hasFailed {
        outcomes := outcomes[file := Abandoned];
        workers := workers[w := Stopped];
        return;
      }
      if ok {
        passed := passed + 1;
        outcomes := outcomes[file := Passed];
        CallRunNext(w);
      } else {
        hasFailed := true;
        failed := failed + 1;
        outcomes := outcomes[file := Failed];
        workers := workers[w := Stopped];
      }
    }

    method LaunchAll()
      requires Invariant(Value()) && !hasFailed && !exited
      modifies `index, `workers
      ensures Invariant(Value()) && |workers| == |old(workers)|
    {
      var i := 0;
      while i < |workers|
        invariant Invariant(Value()) && 0 <= i <= |workers| && |workers| == |old(workers)|
      {
        hide Invariant, RunNext;
        if workers[i].Ready? {
          NextKeeps(Value(), Launch(i));
          CallRunNext(i);
        }
        i := i + 1;
      }
    }

    /** One worker that has not stopped goes on. */
    method GoOn(w: nat)
      requires Invariant(Value()) && !exited && w < |workers| && !workers[w].Stopped?
      modifies `index, `workers, `passed, `failed, `hasFailed, `outcomes
      ensures Invariant(Value()) && |workers| == |old(workers)|
      ensures Work(Value()) < old(Work(Value()))
    {
      if workers[w].Running? {
        var ok: bool := *;
        StepsRunOut(Value(), Settle(w, ok));
        NextKeeps(Value(), Settle(w, ok));
        EndFile(w, ok);
      } else {
        StepsRunOut(Value(), Launch(w));
        NextKeeps(Value(), Launch(w));
        CallRunNext(w);
      }
    }

    /** After a failure the process exits, sooner or later. */
    method MayExit()
      requires Invariant(Value()) && !exited
      modifies `exited
      ensures Invariant(Value()) && (exited ==> hasFailed)
      ensures Work(Value()) <= old(Work(Value()))
    {
      var exit: bool := *;
      if hasFailed && exit {
        NextKeeps(Value(), Exit);
        exited := true;
      }
    }

    /** Runs the chunk to its end: all files have passed, or exactly one has failed. */
    method RunChunks()
      requires Invariant(Value()) && index == 0 && !hasFailed && !exited
      requires files > 0 ==> workers != []
      modifies this
      ensures Invariant(Value())
      ensures !hasFailed ==>
        passed == files && forall file :: 0 <= file < files ==> file in outcomes && outcomes[file] == Passed
      ensures hasFailed ==> failed == 1
    {
      LaunchAll();
      var more := true;
      while more && !exited
        invariant Invariant(Value())
        invariant |workers| == |old(workers)| && (exited ==> hasFailed)
        invariant !more && !exited ==> Finished(Value())
        decreases Work(Value()), more
      {
        hide Work, Invariant;
        more := exists w :: 0 <= w < |workers| && !workers[w].Stopped?;
        if more {
          var w :| 0 <= w < |workers| && !workers[w].Stopped?;
          GoOn(w);
          MayExit();
        }
      }
      if !hasFailed {
        AllEnded(Value());
        assert Ended(Value(), Passed) == Upto(files);
      }
    }
  }
}
