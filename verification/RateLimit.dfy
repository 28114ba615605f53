/** The rate-limit store (blocklet/rate-limit): `increment` and `decrement` read, change and write
    one cache row between taking and releasing a lock that is itself a row with a time to live.
    Calls run as interleaved steps, with any amount of time between two steps. */
module RateLimit {

  import opened Common
  import opened Cache

  datatype Key = Key(name: string)

  datatype Hits = Hits(total: nat, resetTime: Time)

  datatype Op = Increment | Decrement

  datatype Config = Config(windowMs: nat)

  /** The time to live of every row, the lock's as well. */
  function Ttl(config: Config): (ttl: nat)
    ensures ttl > 0 && ttl >= config.windowMs
    ensures config.windowMs > 0 ==> ttl == config.windowMs
    ensures config.windowMs == 0 ==> ttl == 60_000
  {
    if config.windowMs == 0 then 60 * 1000 else config.windowMs
  }

  /** How long a key's count goes on after its first call; a window of 0 still holds one moment. */
  function Span(config: Config): (span: nat)
    ensures config.windowMs <= span <= Ttl(config)
  {
    if config.windowMs == 0 then 1 else config.windowMs
  }

  datatype Call = Call(op: Op, key: Key, calledAt: Time)

  datatype Stage =
    | Waiting
    | Locked(since: Time, ticket: nat)
    | Seen(since: Time, ticket: nat, readAt: Time, seen: Option<Hits>)
    | Judged(since: Time, ticket: nat, readAt: Time, judgedAt: Time, next: Option<Hits>)
    | Written(since: Time, result: Option<Hits>)
    | Done(result: Option<Hits>)

  datatype Process = Process(call: Call, stage: Stage)

  /** One call's effect on the store: who made it, which turn it had at the lock, and when it
      read, judged and wrote. */
  datatype Entry = Entry(id: nat, ticket: nat, call: Call, readAt: Time, judgedAt: Time, writtenAt: Time,
                         result: Option<Hits>)

  /** Besides the store and its locks: the turns the locks have given out, and the calls that
      have written, in that order. */
  datatype State = State(now: Time, hits: Rows<Key, Hits>, locks: Rows<Key, nat>, processes: seq<Process>,
                         tickets: nat, log: seq<Entry>)

  datatype Event = Tick(ms: nat) | Begin(op: Op, key: Key) | Advance(process: nat)

  const START := State(0, map[], map[], [], 0, [])

  // ---------------------------------------------------------------- the steps

  function Fresh(config: Config, call: Call): Hits {
    Hits(1, call.calledAt + config.windowMs)
  }

  /** What a call writes, given what it has read; None when it writes nothing. */
  function Judge(config: Config, call: Call, seen: Option<Hits>, now: Time): Option<Hits> {
    match call.op
    case Increment =>
      if seen.None? || seen.value.resetTime < now then Some(Fresh(config, call))
      else Some(Hits(seen.value.total + 1, seen.value.resetTime))
    case Decrement =>
      if seen.None? then None
      else Some(Hits(if seen.value.total == 0 then 0 else seen.value.total - 1, seen.value.resetTime))
  }

  function Store(config: Config, hits: Rows<Key, Hits>, key: Key, next: Option<Hits>, now: Time): Rows<Key, Hits> {
    if next.None? then hits else Write(hits, key, next.value, Ttl(config), now)
  }

  function To(s: State, i: nat, stage: Stage): State
    requires i < |s.processes|
  {
    s.(processes := s.processes[i := s.processes[i].(stage := stage)])
  }

  function Advanced(config: Config, s: State, i: nat): State
    requires i < |s.processes|
  {
    var call := s.processes[i].call;
    match s.processes[i].stage
    case Waiting =>
      if Lookup(s.locks, call.key, s.now).Some? then s
      else To(s, i, Locked(s.now, s.tickets))
           .(locks := Write(s.locks, call.key, s.tickets, Ttl(config), s.now), tickets := s.tickets + 1)
    case Locked(since, ticket) =>
      To(s, i, Seen(since, ticket, s.now, Lookup(s.hits, call.key, s.now)))
    case Seen(since, ticket, readAt, seen) =>
      To(s, i, Judged(since, ticket, readAt, s.now, Judge(config, call, seen, s.now)))
    case Judged(since, ticket, readAt, judgedAt, next) =>
      To(s, i, Written(since, next))
      .(hits := Store(config, s.hits, call.key, next, s.now),
        log := s.log + [Entry(i, ticket, call, readAt, judgedAt, s.now, next)])
    case Written(since, result) =>
      To(s, i, Done(result)).(locks := Delete(s.locks, call.key))
    case Done(_) => s
  }

  /** A call with an empty key never reaches the store. */
  function Begun(config: Config, s: State, op: Op, key: Key): State {
    var call := Call(op, key, s.now);
    var stage := if key.name == "" then Done(if op.Increment? then Some(Fresh(config, call)) else None) else Waiting;
    s.(processes := s.processes + [Process(call, stage)])
  }

  function Next(config: Config, s: State, e: Event): State {
    match e
    case Tick(ms) => s.(now := s.now + ms)
    case Begin(op, key) => Begun(config, s, op, key)
    case Advance(i) => if i < |s.processes| then Advanced(config, s, i) else s
  }

  function Run(config: Config, s: State, events: seq<Event>): State
    decreases |events|
  {
    if events == [] then s else Run(config, Next(config, s, events[0]), events[1..])
  }

  // ---------------------------------------------------------------- the store, one call at a time

  /** The call run on its own, without any lock. */
  function Apply(config: Config, hits: Rows<Key, Hits>, e: Entry): Rows<Key, Hits> {
    Store(config, hits, e.call.key, Judge(config, e.call, Lookup(hits, e.call.key, e.readAt), e.judgedAt), e.writtenAt)
  }

  function Serial(config: Config, log: seq<Entry>): Rows<Key, Hits> {
    if log == [] then map[]
    else Apply(config, Serial(config, log[..|log| - 1]), log[|log| - 1])
  }

  lemma SerialSnoc(config: Config, log: seq<Entry>, e: Entry)
    ensures Serial(config, log + [e]) == Apply(config, Serial(config, log), e)
  {
    assert (log + [e])[..|log|] == log;
  }

  // ---------------------------------------------------------------- mutual exclusion

  predicate InSection(p: Process) {
    p.stage.Locked? || p.stage.Seen? || p.stage.Judged? || p.stage.Written?
  }

  predicate Inside(s: State, i: int, key: Key) {
    0 <= i < |s.processes| && InSection(s.processes[i]) && s.processes[i].call.key == key
  }

  /** Whoever is in the key's critical section is still within its lock's time to live. */
  ghost predicate Timely(config: Config, s: State, key: Key) {
    forall i :: Inside(s, i, key) ==> s.now < s.processes[i].stage.since + Ttl(config)
  }

  ghost predicate TimelyRun(config: Config, s: State, events: seq<Event>, key: Key)
    decreases |events|
  {
    Timely(config, s, key) && (events != [] ==> TimelyRun(config, Next(config, s, events[0]), events[1..], key))
  }

  ghost predicate Exclusive(s: State, key: Key) {
    forall i, j :: Inside(s, i, key) && Inside(s, j, key) ==> i == j
  }

  ghost predicate LocksHeld(config: Config, s: State, key: Key) {
    forall i :: Inside(s, i, key) ==>
      key in s.locks && s.locks[key].expiresAt == Some(s.processes[i].stage.since + Ttl(config))
  }

  ghost predicate Guarded(config: Config, s: State, key: Key) {
    Exclusive(s, key) && LocksHeld(config, s, key)
  }

  lemma NextStaysGuarded(config: Config, s: State, e: Event, key: Key)
    requires Guarded(config, s, key) && Timely(config, s, key)
    ensures Guarded(config, Next(config, s, e), key)
  {
    var t := Next(config, s, e);
    assert forall j :: Inside(s, j, key) ==> Inside(t, j, key) || (e.Advance? && e.process == j);
    if e.Advance? && e.process < |s.processes| {
      AdvancedStaysGuarded(config, s, e.process, key);
    } else {
      assert forall j :: Inside(t, j, key) ==> Inside(s, j, key);
    }
  }

  lemma AdvancedStaysGuarded(config: Config, s: State, i: nat, key: Key)
    requires Guarded(config, s, key) && Timely(config, s, key) && i < |s.processes|
    ensures Guarded(config, Advanced(config, s, i), key)
  {
    var t := Advanced(config, s, i);
    AdvancedInside(config, s, i, key);
    assert Lookup(s.locks, key, s.now).None? ==> forall j :: !Inside(s, j, key);
    forall j | Inside(t, j, key)
      ensures key in t.locks && t.locks[key].expiresAt == Some(t.processes[j].stage.since + Ttl(config))
    {
      assert j != i ==> Inside(s, j, key) && t.processes[j] == s.processes[j];
      assert s.processes[i].call.key == key && InSection(s.processes[i]) ==> Inside(s, i, key);
    }
  }

  /** A step brings in only the process that makes it, and only when the lock is free. */
  lemma AdvancedInside(config: Config, s: State, i: nat, key: Key)
    requires i < |s.processes|
    ensures var t := Advanced(config, s, i);
            && (forall j :: j != i ==> (Inside(t, j, key) <==> Inside(s, j, key)))
            && (Inside(t, i, key) ==> Inside(s, i, key) || Lookup(s.locks, key, s.now).None?)
  {
  }

  // ---------------------------------------------------------------- every run is serial

  /** What a process has read is still what the store holds for its key. */
  predicate StillTrue(config: Config, hits: Rows<Key, Hits>, p: Process) {
    match p.stage
    case Seen(since, ticket, readAt, seen) => seen == Lookup(hits, p.call.key, readAt)
    case Judged(since, ticket, readAt, judgedAt, next) =>
      next == Judge(config, p.call, Lookup(hits, p.call.key, readAt), judgedAt)
    case _ => true
  }

  ghost predicate ReadsHold(config: Config, s: State, key: Key) {
    forall i :: Inside(s, i, key) ==> StillTrue(config, s.hits, s.processes[i])
  }

  lemma NextReadsHold(config: Config, s: State, e: Event, key: Key)
    requires Exclusive(s, key) && ReadsHold(config, s, key)
    ensures ReadsHold(config, Next(config, s, e), key)
  {
    var t := Next(config, s, e);
    forall j | Inside(t, j, key)
      ensures StillTrue(config, t.hits, t.processes[j])
    {
      assert Inside(s, j, key) || (e.Advance? && e.process == j);
      if e.Advance? && e.process < |s.processes| {
        assert InSection(s.processes[e.process]) && s.processes[e.process].call.key == key
               ==> Inside(s, e.process, key);
      }
    }
  }

  /** A key's row in one store is its row in the other. */
  predicate SameRow(a: Rows<Key, Hits>, b: Rows<Key, Hits>, key: Key) {
    (key in a <==> key in b) && (key in a ==> a[key] == b[key])
  }

  lemma NextStaysSerial(config: Config, s: State, e: Event, key: Key)
    requires ReadsHold(config, s, key) && SameRow(s.hits, Serial(config, s.log), key)
    ensures SameRow(Next(config, s, e).hits, Serial(config, Next(config, s, e).log), key)
  {
    hide Serial;
    var t := Next(config, s, e);
    if t.log != s.log {
      assert t.log == s.log + [t.log[|s.log|]];
      SerialSnoc(config, s.log, t.log[|s.log|]);
      assert s.processes[e.process].call.key == key ==> Inside(s, e.process, key);
    }
  }

  /** What the call in this place of the log answered is what it answers after the calls before. */
  ghost predicate AnswerHolds(config: Config, log: seq<Entry>, j: nat)
    requires j < |log|
  {
    log[j].result == Judge(config, log[j].call, Lookup(Serial(config, log[..j]), log[j].call.key, log[j].readAt),
                           log[j].judgedAt)
  }

  ghost predicate AnswersHold(config: Config, log: seq<Entry>, key: Key) {
    forall j :: 0 <= j < |log| && log[j].call.key == key ==> AnswerHolds(config, log, j)
  }

  lemma NextAnswersHold(config: Config, s: State, e: Event, key: Key)
    requires ReadsHold(config, s, key) && SameRow(s.hits, Serial(config, s.log), key)
    requires AnswersHold(config, s.log, key)
    ensures AnswersHold(config, Next(config, s, e).log, key)
  {
    hide Serial;
    var t := Next(config, s, e);
    forall j | 0 <= j < |t.log| && t.log[j].call.key == key
      ensures AnswerHolds(config, t.log, j)
    {
      if j < |s.log| {
        assert t.log[..j] == s.log[..j] && AnswerHolds(config, s.log, j);
      } else {
        assert t.log[..j] == s.log;
        assert Inside(s, e.process, key);
      }
    }
  }

  // ---------------------------------------------------------------- the log and the calls

  predicate HasWritten(p: Process) {
    p.stage.Written? || (p.stage.Done? && p.call.key.name != "")
  }

  predicate HasTurn(p: Process) {
    p.stage.Locked? || p.stage.Seen? || p.stage.Judged?
  }

  /** An entry belongs to a process that has written, says what that process answers, and its times
      are in order. */
  ghost predicate Belongs(s: State, e: Entry) {
    && e.id < |s.processes|
    && s.processes[e.id].call == e.call
    && HasWritten(s.processes[e.id])
    && s.processes[e.id].stage.result == e.result
    && e.ticket < s.tickets
    && e.call.calledAt <= e.readAt <= e.judgedAt <= e.writtenAt <= s.now
  }

  ghost predicate EntriesBelong(s: State) {
    forall j :: 0 <= j < |s.log| ==> Belongs(s, s.log[j])
  }

  ghost predicate InTime(s: State, p: Process) {
    && p.call.calledAt <= s.now
    && (!p.stage.Done? ==> p.call.key.name != "")
    && (InSection(p) ==> p.call.calledAt <= p.stage.since <= s.now)
    && (p.stage.Seen? ==> p.call.calledAt <= p.stage.readAt <= s.now)
    && (p.stage.Judged? ==> p.call.calledAt <= p.stage.readAt <= p.stage.judgedAt <= s.now)
    && (HasTurn(p) ==> p.stage.ticket < s.tickets)
  }

  ghost predicate AllInTime(s: State) {
    forall i :: 0 <= i < |s.processes| ==> InTime(s, s.processes[i])
  }

  lemma AdvancedInTime(config: Config, s: State, i: nat)
    requires i < |s.processes| && InTime(s, s.processes[i])
    ensures InTime(Advanced(config, s, i), Advanced(config, s, i).processes[i])
  {
  }

  lemma NextInTime(config: Config, s: State, e: Event)
    requires AllInTime(s)
    ensures AllInTime(Next(config, s, e))
  {
    var t := Next(config, s, e);
    if e.Advance? && e.process < |s.processes| { AdvancedInTime(config, s, e.process); }
    assert |s.processes| < |t.processes| ==> InTime(t, t.processes[|s.processes|]);
    hide Next, Advanced;
    assert s.now <= t.now && s.tickets <= t.tickets by { NextMovesOn(config, s, e); }
    forall j | 0 <= j < |t.processes|
      ensures InTime(t, t.processes[j])
    {
      if j < |s.processes| { assert InTime(s, s.processes[j]); NextMovesOn(config, s, e); }
    }
  }

  /** A step changes no other process, and neither the clock nor the turns go back. */
  lemma NextMovesOn(config: Config, s: State, e: Event)
    ensures var t := Next(config, s, e);
            && s.now <= t.now && s.tickets <= t.tickets && |s.processes| <= |t.processes| <= |s.processes| + 1
            && forall j :: 0 <= j < |s.processes| && !(e.Advance? && e.process == j) ==>
                 t.processes[j] == s.processes[j]
  {
  }

  lemma NextEntriesBelong(config: Config, s: State, e: Event)
    requires EntriesBelong(s) && AllInTime(s)
    ensures EntriesBelong(Next(config, s, e))
  {
    var t := Next(config, s, e);
    if e.Advance? && e.process < |s.processes| { assert InTime(s, s.processes[e.process]); }
    forall j | 0 <= j < |t.log|
      ensures Belongs(t, t.log[j])
    {
      if j < |s.log| { assert Belongs(s, s.log[j]); }
    }
  }

  ghost predicate InLog(log: seq<Entry>, i: nat) {
    exists j :: 0 <= j < |log| && log[j].id == i
  }

  /** Every call that has written is in the log, and no call is there twice. */
  ghost predicate OncePerCall(s: State) {
    && (forall j, k :: 0 <= j < k < |s.log| ==> s.log[j].id != s.log[k].id)
    && (forall i :: 0 <= i < |s.processes| && HasWritten(s.processes[i]) ==> InLog(s.log, i))
  }

  lemma InLogGrows(log: seq<Entry>, e: Entry, i: nat)
    ensures InLog(log + [e], i) <==> InLog(log, i) || e.id == i
  {
    if InLog(log, i) {
      var j :| 0 <= j < |log| && log[j].id == i;
      assert (log + [e])[j].id == i;
    }
    assert (log + [e])[|log|].id == e.id;
  }

  lemma NextOncePerCall(config: Config, s: State, e: Event)
    requires OncePerCall(s) && EntriesBelong(s) && AllInTime(s)
    ensures OncePerCall(Next(config, s, e))
  {
    hide InLog;
    var t := Next(config, s, e);
    if e.Advance? && e.process < |s.processes| { assert InTime(s, s.processes[e.process]); }
    assert forall j :: 0 <= j < |s.log| ==> Belongs(s, s.log[j]);
    forall k | 0 <= k < |t.processes| && HasWritten(t.processes[k])
      ensures InLog(t.log, k)
    {
      if t.log != s.log { InLogGrows(s.log, t.log[|s.log|], k); }
    }
  }

  // ---------------------------------------------------------------- turns at the lock

  /** The calls on the key have written in the order of their turns. */
  ghost predicate LogInTurn(log: seq<Entry>, key: Key) {
    forall j, k :: 0 <= j < k < |log| && log[j].call.key == key && log[k].call.key == key ==>
      log[j].ticket < log[k].ticket
  }

  ghost predicate AfterAll(log: seq<Entry>, p: Process) {
    HasTurn(p) ==> forall j :: 0 <= j < |log| && log[j].call.key == p.call.key ==> log[j].ticket < p.stage.ticket
  }

  /** Whoever still holds a turn at the key got it after all that have written. */
  ghost predicate TurnsAfter(s: State, key: Key) {
    forall i :: Inside(s, i, key) ==> AfterAll(s.log, s.processes[i])
  }

  lemma NextInTurn(config: Config, s: State, e: Event, key: Key)
    requires LogInTurn(s.log, key) && TurnsAfter(s, key)
    ensures LogInTurn(Next(config, s, e).log, key)
  {
    var t := Next(config, s, e);
    if t.log != s.log {
      assert s.processes[e.process].call.key == key ==> Inside(s, e.process, key);
    }
  }

  lemma NextTurnsAfter(config: Config, s: State, e: Event, key: Key)
    requires TurnsAfter(s, key) && EntriesBelong(s) && Exclusive(s, key)
    ensures TurnsAfter(Next(config, s, e), key)
  {
    hide EntriesBelong, Exclusive, AfterAll;
    var t := Next(config, s, e);
    forall k | Inside(t, k, key)
      ensures AfterAll(t.log, t.processes[k])
    {
      NextAfterAll(config, s, e, key, k);
    }
  }

  lemma NextAfterAll(config: Config, s: State, e: Event, key: Key, k: nat)
    requires TurnsAfter(s, key) && EntriesBelong(s) && Exclusive(s, key) && Inside(Next(config, s, e), k, key)
    ensures AfterAll(Next(config, s, e).log, Next(config, s, e).processes[k])
  {
    var t := Next(config, s, e);
    assert Inside(s, k, key) || (e.Advance? && e.process == k);
    if e.Advance? && e.process == k {
      StepAfterAll(config, s, k, key);
    } else {
      assert t.processes[k] == s.processes[k] && AfterAll(s.log, s.processes[k]);
      assert t.log != s.log && s.processes[e.process].call.key == key ==> Inside(s, e.process, key);
    }
  }

  lemma StepAfterAll(config: Config, s: State, k: nat, key: Key)
    requires TurnsAfter(s, key) && EntriesBelong(s) && k < |s.processes| && s.processes[k].call.key == key
    ensures AfterAll(Advanced(config, s, k).log, Advanced(config, s, k).processes[k])
  {
    assert forall j :: 0 <= j < |s.log| ==> Belongs(s, s.log[j]);
    assert HasTurn(s.processes[k]) ==> Inside(s, k, key);
  }

  // ---------------------------------------------------------------- the runs

  /** What holds of every run. */
  ghost predicate Recorded(s: State) {
    EntriesBelong(s) && AllInTime(s) && OncePerCall(s)
  }

  /** What holds of a key whose callers exclude one another. */
  ghost predicate InOrder(config: Config, s: State, key: Key) {
    && ReadsHold(config, s, key)
    && SameRow(s.hits, Serial(config, s.log), key) && AnswersHold(config, s.log, key)
    && LogInTurn(s.log, key) && TurnsAfter(s, key)
  }

  lemma NextStaysRecorded(config: Config, s: State, e: Event)
    requires Recorded(s)
    ensures Recorded(Next(config, s, e))
  {
    NextInTime(config, s, e);
    NextEntriesBelong(config, s, e);
    NextOncePerCall(config, s, e);
    hide EntriesBelong, AllInTime, OncePerCall;
  }

  /** Nobody is ever in the key's critical section together with another. */
  ghost predicate ExclusiveRun(config: Config, s: State, events: seq<Event>, key: Key)
    decreases |events|
  {
    Exclusive(s, key) && (events != [] ==> ExclusiveRun(config, Next(config, s, events[0]), events[1..], key))
  }

  lemma {:induction false} RunStaysInOrder(config: Config, s: State, events: seq<Event>, key: Key)
    requires Recorded(s) && InOrder(config, s, key) && ExclusiveRun(config, s, events, key)
    ensures InOrder(config, Run(config, s, events), key) && Exclusive(Run(config, s, events), key)
    decreases |events|
  {
    hide Next, Exclusive, ReadsHold, SameRow, AnswersHold, LogInTurn, TurnsAfter, EntriesBelong, AllInTime, OncePerCall,
         Serial;
    if events != [] {
      var e := events[0];
      NextStaysRecorded(config, s, e);
      NextReadsHold(config, s, e, key);
      NextStaysSerial(config, s, e, key);
      NextAnswersHold(config, s, e, key);
      NextInTurn(config, s, e, key);
      NextTurnsAfter(config, s, e, key);
      RunStaysInOrder(config, Next(config, s, e), events[1..], key);
    }
  }

  /** Callers that never outstay their lock exclude one another. */
  lemma {:induction false} TimelyRunIsExclusive(config: Config, s: State, events: seq<Event>, key: Key)
    requires Guarded(config, s, key) && TimelyRun(config, s, events, key)
    ensures ExclusiveRun(config, s, events, key)
    decreases |events|
  {
    hide Next, Exclusive, LocksHeld, Timely;
    if events != [] {
      NextStaysGuarded(config, s, events[0], key);
      TimelyRunIsExclusive(config, Next(config, s, events[0]), events[1..], key);
    }
  }

  lemma {:induction false} RunStaysRecorded(config: Config, s: State, events: seq<Event>)
    requires Recorded(s)
    ensures Recorded(Run(config, s, events))
    decreases |events|
  {
    hide Next, Recorded;
    if events != [] {
      NextStaysRecorded(config, s, events[0]);
      RunStaysRecorded(config, Next(config, s, events[0]), events[1..]);
    }
  }

  /** Over any run in which the key's callers exclude one another, the key's row is what the calls
      leave behind when made one by one in the order of their turns. Each call that has finished is
      among them exactly once, with the answer it gave. */
  lemma ExclusiveRunsAreSerial(config: Config, events: seq<Event>, key: Key)
    requires ExclusiveRun(config, START, events, key)
    ensures var s := Run(config, START, events);
            && SameRow(s.hits, Serial(config, s.log), key) && AnswersHold(config, s.log, key)
            && LogInTurn(s.log, key) && OncePerCall(s) && EntriesBelong(s)
  {
    RunStaysInOrder(config, START, events, key);
    RunStaysRecorded(config, START, events);
  }

  /** So does the lock: over any run in which the key's callers never outstay it, they exclude one
      another, and the run is serial. */
  lemma LockedRunsAreSerial(config: Config, events: seq<Event>, key: Key)
    requires TimelyRun(config, START, events, key)
    ensures var s := Run(config, START, events);
            && ExclusiveRun(config, START, events, key)
            && SameRow(s.hits, Serial(config, s.log), key) && AnswersHold(config, s.log, key)
            && LogInTurn(s.log, key) && OncePerCall(s) && EntriesBelong(s)
  {
    TimelyRunIsExclusive(config, START, events, key);
    ExclusiveRunsAreSerial(config, events, key);
  }

  // ---------------------------------------------------------------- calls without a key

  /** A call without a key has its answer at once, and the store never sees it. */
  ghost predicate EmptyKeysAside(config: Config, s: State) {
    && Key("") !in s.hits && Key("") !in s.locks
    && forall i :: 0 <= i < |s.processes| && s.processes[i].call.key.name == "" ==>
         var call := s.processes[i].call;
         s.processes[i].stage
         == Done(if call.op.Increment? then Some(Hits(1, call.calledAt + config.windowMs)) else None)
  }

  lemma NextKeepsEmptyKeysAside(config: Config, s: State, e: Event)
    requires EmptyKeysAside(config, s)
    ensures EmptyKeysAside(config, Next(config, s, e))
  {
  }

  lemma {:induction false} RunKeepsEmptyKeysAside(config: Config, s: State, events: seq<Event>)
    requires EmptyKeysAside(config, s)
    ensures EmptyKeysAside(config, Run(config, s, events))
    decreases |events|
  {
    hide EmptyKeysAside, Next;
    if events != [] {
      NextKeepsEmptyKeysAside(config, s, events[0]);
      RunKeepsEmptyKeysAside(config, Next(config, s, events[0]), events[1..]);
    }
  }

  /** In every run. */
  lemma EmptyKeysNeverCount(config: Config, events: seq<Event>)
    ensures EmptyKeysAside(config, Run(config, START, events))
  {
    RunKeepsEmptyKeysAside(config, START, events);
  }

  // ---------------------------------------------------------------- rows outlive their reset time

  predicate RowOutlivesReset(row: Row<Hits>) {
    row.expiresAt.Some? && row.value.resetTime <= row.expiresAt.value
  }

  ghost predicate ResetsSoon(config: Config, s: State, p: Process) {
    && p.call.calledAt <= s.now
    && (p.stage.Seen? && p.stage.seen.Some? ==> p.stage.seen.value.resetTime <= s.now + config.windowMs)
    && (p.stage.Judged? && p.stage.next.Some? ==> p.stage.next.value.resetTime <= s.now + config.windowMs)
  }

  /** Nothing around resets later than a window from now, and every row stays until it resets. */
  ghost predicate Resets(config: Config, s: State) {
    && (forall key :: key in s.hits ==>
          RowOutlivesReset(s.hits[key]) && s.hits[key].value.resetTime <= s.now + config.windowMs)
    && (forall i :: 0 <= i < |s.processes| ==> ResetsSoon(config, s, s.processes[i]))
  }

  lemma AdvancedResetsSoon(config: Config, s: State, i: nat)
    requires Resets(config, s) && i < |s.processes|
    ensures ResetsSoon(config, Advanced(config, s, i), Advanced(config, s, i).processes[i])
  {
    assert ResetsSoon(config, s, s.processes[i]);
  }

  lemma AdvancedRowsReset(config: Config, s: State, i: nat, key: Key)
    requires Resets(config, s) && i < |s.processes| && key in Advanced(config, s, i).hits
    ensures var t := Advanced(config, s, i);
            RowOutlivesReset(t.hits[key]) && t.hits[key].value.resetTime <= t.now + config.windowMs
  {
    assert ResetsSoon(config, s, s.processes[i]);
  }

  lemma NextKeepsResets(config: Config, s: State, e: Event)
    requires Resets(config, s)
    ensures Resets(config, Next(config, s, e))
  {
    var t := Next(config, s, e);
    NextMovesOn(config, s, e);
    forall i | 0 <= i < |t.processes|
      ensures ResetsSoon(config, t, t.processes[i])
    {
      if i < |s.processes| {
        assert ResetsSoon(config, s, s.processes[i]);
        if e.Advance? && e.process == i { AdvancedResetsSoon(config, s, i); }
      }
    }
    forall key | key in t.hits
      ensures RowOutlivesReset(t.hits[key]) && t.hits[key].value.resetTime <= t.now + config.windowMs
    {
      if e.Advance? && e.process < |s.processes| { AdvancedRowsReset(config, s, e.process, key); }
    }
    hide Next, Advanced, RowOutlivesReset, ResetsSoon;
  }

  lemma {:induction false} RunKeepsResets(config: Config, s: State, events: seq<Event>)
    requires Resets(config, s)
    ensures Resets(config, Run(config, s, events))
    decreases |events|
  {
    hide Resets, Next;
    if events != [] {
      NextKeepsResets(config, s, events[0]);
      RunKeepsResets(config, Next(config, s, events[0]), events[1..]);
    }
  }

  /** In every run, also one in which locks expire, a stored row never expires before the time at
      which it is to be reset, and that is at most a window away. */
  lemma RowsOutliveTheirReset(config: Config, events: seq<Event>, key: Key)
    ensures var s := Run(config, START, events);
            key in s.hits ==> RowOutlivesReset(s.hits[key]) && s.hits[key].value.resetTime <= s.now + config.windowMs
    ensures Resets(config, Run(config, START, events))
  {
    RunKeepsResets(config, START, events);
    hide Run;
  }

  // ---------------------------------------------------------------- no hit is lost

  /** Increments less decrements on a key; a decrement never takes the count below 0. */
  function Net(log: seq<Entry>, key: Key): nat {
    if log == [] then 0
    else
      var e, n := log[|log| - 1], Net(log[..|log| - 1], key);
      if e.call.key != key then n else if e.call.op.Increment? then n + 1 else if n == 0 then 0 else n - 1
  }

  ghost predicate AnyIncrement(log: seq<Entry>, key: Key) {
    exists j :: 0 <= j < |log| && log[j].call.key == key && log[j].call.op.Increment?
  }

  /** The call was made, and has written, within the span that starts at `from`. */
  ghost predicate Within(config: Config, from: Time, e: Entry) {
    from <= e.call.calledAt <= e.readAt <= e.judgedAt <= e.writtenAt < from + Span(config)
  }

  lemma {:induction false} SerialCounts(config: Config, log: seq<Entry>, key: Key, from: Time)
    requires forall j :: 0 <= j < |log| && log[j].call.key == key ==> Within(config, from, log[j])
    ensures var rows := Serial(config, log);
            && (key in rows <==> AnyIncrement(log, key))
            && (key !in rows ==> Net(log, key) == 0)
            && (key in rows ==>
                  && rows[key].value.total == Net(log, key)
                  && from + config.windowMs <= rows[key].value.resetTime
                  && rows[key].expiresAt.Some? && from + Span(config) <= rows[key].expiresAt.value)
    decreases |log|
  {
    if log != [] {
      var m := |log| - 1;
      SerialCounts(config, log[..m], key, from);
      assert AnyIncrement(log, key)
             <==> AnyIncrement(log[..m], key) || (log[m].call.key == key && log[m].call.op.Increment?);
    }
  }

  /** The call at j starts the count: it finds no live row, or one whose time is past. */
  ghost predicate Opens(config: Config, log: seq<Entry>, j: nat)
    requires j < |log|
  {
    && log[j].call.op.Increment?
    && var seen := Lookup(Serial(config, log[..j]), log[j].call.key, log[j].readAt);
       seen.None? || seen.value.resetTime < log[j].judgedAt
  }

  /** The call at j is the last one on the key that started the count. */
  ghost predicate OpenedLast(config: Config, log: seq<Entry>, key: Key, j: nat) {
    && j < |log| && log[j].call.key == key && Opens(config, log, j)
    && forall k :: j < k < |log| && log[k].call.key == key ==> !Opens(config, log, k)
  }

  /** A count is reset a window after the call that started it, whatever calls follow: they keep the
      reset time until one finds it past or finds no row. */
  lemma {:induction false} ResetTimeIsTheOpeningCalls(config: Config, log: seq<Entry>, key: Key)
    requires key in Serial(config, log)
    ensures exists j: nat :: OpenedLast(config, log, key, j)
                             && Serial(config, log)[key].value.resetTime == log[j].call.calledAt + config.windowMs
    decreases |log|
  {
    var m := |log| - 1;
    var before, e := log[..m], log[m];
    assert forall j :: 0 <= j < m ==> log[..j] == before[..j];
    hide OpenedLast;
    if e.call.key == key && Opens(config, log, m) {
      assert OpenedLast(config, log, key, m) by { OpensLast(config, log, key, m); }
    } else {
      ResetTimeIsTheOpeningCalls(config, before, key);
      var j: nat :| OpenedLast(config, before, key, j)
                    && Serial(config, before)[key].value.resetTime == before[j].call.calledAt + config.windowMs;
      OpeningStays(config, log, key, j);
    }
  }

  lemma ExclusiveRunsResetOnTime(config: Config, events: seq<Event>, key: Key)
    requires ExclusiveRun(config, START, events, key)
    ensures var s := Run(config, START, events);
            key in s.hits ==>
              exists j: nat :: OpenedLast(config, s.log, key, j)
                               && s.hits[key].value.resetTime == s.log[j].call.calledAt + config.windowMs
  {
    hide Run, Serial, OpenedLast, ExclusiveRun;
    ExclusiveRunsAreSerial(config, events, key);
    var s := Run(config, START, events);
    if key in s.hits { ResetTimeIsTheOpeningCalls(config, s.log, key); }
  }

  lemma OpensLast(config: Config, log: seq<Entry>, key: Key, m: nat)
    requires m == |log| - 1 && log[m].call.key == key && Opens(config, log, m)
    ensures OpenedLast(config, log, key, m)
  {
  }

  lemma OpeningStays(config: Config, log: seq<Entry>, key: Key, j: nat)
    requires log != [] && OpenedLast(config, log[..|log| - 1], key, j)
    requires log[|log| - 1].call.key == key ==> !Opens(config, log, |log| - 1)
    ensures OpenedLast(config, log, key, j) && log[j] == log[..|log| - 1][j]
  {
    hide Serial;
    var m := |log| - 1;
    assert forall k :: 0 <= k < m ==> log[..k] == log[..m][..k];
    assert forall k :: 0 <= k < m ==> (Opens(config, log, k) <==> Opens(config, log[..m], k));
  }

  ghost function Callers(s: State, key: Key): set<nat> {
    set i | 0 <= i < |s.processes| && s.processes[i].call.key == key
  }

  ghost function Ids(log: seq<Entry>, key: Key): set<nat> {
    set j | 0 <= j < |log| && log[j].call.key == key :: log[j].id
  }

  lemma IdsSnoc(log: seq<Entry>, m: nat, key: Key)
    requires |log| == m + 1 && forall j, k :: 0 <= j < k < |log| ==> log[j].id != log[k].id
    ensures Ids(log, key) == Ids(log[..m], key) + if log[m].call.key == key then {log[m].id} else {}
    ensures log[m].id !in Ids(log[..m], key)
  {
  }

  lemma {:induction false} NetCountsIds(log: seq<Entry>, key: Key)
    requires forall j, k :: 0 <= j < k < |log| ==> log[j].id != log[k].id
    requires forall j :: 0 <= j < |log| && log[j].call.key == key ==> log[j].call.op.Increment?
    ensures Net(log, key) == |Ids(log, key)|
    decreases |log|
  {
    if log != [] {
      var m := |log| - 1;
      NetCountsIds(log[..m], key);
      IdsSnoc(log, m, key);
      hide Ids;
    }
  }

  ghost predicate AllIncrement(s: State, key: Key) {
    forall i :: 0 <= i < |s.processes| && s.processes[i].call.key == key ==> s.processes[i].call.op.Increment?
  }

  ghost predicate CalledFrom(s: State, key: Key, from: Time) {
    forall i :: 0 <= i < |s.processes| && s.processes[i].call.key == key ==> from <= s.processes[i].call.calledAt
  }

  ghost predicate AllDone(s: State, key: Key) {
    forall i :: 0 <= i < |s.processes| && s.processes[i].call.key == key ==> s.processes[i].stage.Done?
  }

  /** While a run goes on, the clock only advances and calls are neither forgotten nor changed. */
  ghost predicate Extends(s: State, t: State) {
    && s.now <= t.now && |s.processes| <= |t.processes|
    && forall i :: 0 <= i < |s.processes| ==> t.processes[i].call == s.processes[i].call
  }

  lemma {:induction false} RunExtends(config: Config, s: State, events: seq<Event>)
    ensures Extends(s, Run(config, s, events))
    decreases |events|
  {
    if events != [] {
      var t := Next(config, s, events[0]);
      assert Extends(s, t);
      RunExtends(config, t, events[1..]);
      hide Next;
    }
  }

  /** A lock taken after the first call lasts for its time to live from then on, so nobody can outstay
      one before. */
  lemma {:induction false} NobodyOutstays(config: Config, s: State, events: seq<Event>, key: Key, from: Time)
    requires Recorded(s)
    requires CalledFrom(Run(config, s, events), key, from) && Run(config, s, events).now < from + Ttl(config)
    ensures TimelyRun(config, s, events, key)
    decreases |events|
  {
    hide Next, OncePerCall, EntriesBelong;
    RunExtends(config, s, events);
    var t := Run(config, s, events);
    forall i | Inside(s, i, key)
      ensures s.now < s.processes[i].stage.since + Ttl(config)
    {
      assert InTime(s, s.processes[i]) && t.processes[i].call == s.processes[i].call;
    }
    if events != [] {
      NextStaysRecorded(config, s, events[0]);
      NobodyOutstays(config, Next(config, s, events[0]), events[1..], key, from);
    }
  }

  /** Within the span of the first call on a key, the stored count is exactly the increments
      less the decrements, however the calls were interleaved and delayed; with increments only it
      is the number of calls. */
  lemma NoHitIsLost(config: Config, events: seq<Event>, key: Key, from: Time)
    requires key.name != ""
    requires AllDone(Run(config, START, events), key) && CalledFrom(Run(config, START, events), key, from)
    requires Run(config, START, events).now < from + Span(config)
    ensures var s := Run(config, START, events);
            var stored := Lookup(s.hits, key, s.now);
            && (stored.Some? <==> AnyIncrement(s.log, key))
            && (stored.Some? ==> stored.value.total == Net(s.log, key))
            && (AllIncrement(s, key) ==> Net(s.log, key) == |Callers(s, key)|)
  {
    assert Recorded(START);
    hide *;
    NobodyOutstays(config, START, events, key, from);
    LockedRunsAreSerial(config, events, key);
    SerialStateCounts(config, Run(config, START, events), key, from);
  }

  lemma SerialStateCounts(config: Config, s: State, key: Key, from: Time)
    requires SameRow(s.hits, Serial(config, s.log), key) && OncePerCall(s) && EntriesBelong(s)
    requires key.name != "" && AllDone(s, key) && CalledFrom(s, key, from) && s.now < from + Span(config)
    ensures var stored := Lookup(s.hits, key, s.now);
            && (stored.Some? <==> AnyIncrement(s.log, key))
            && (stored.Some? ==> stored.value.total == Net(s.log, key))
            && (AllIncrement(s, key) ==> Net(s.log, key) == |Callers(s, key)|)
  {
    hide Serial, Net, AnyIncrement, Callers, Ids;
    forall j | 0 <= j < |s.log| && s.log[j].call.key == key
      ensures Within(config, from, s.log[j])
    {
      assert Belongs(s, s.log[j]);
    }
    SerialCounts(config, s.log, key, from);
    if AllIncrement(s, key) {
      CallersAreLogged(s, key);
      assert forall j :: 0 <= j < |s.log| ==> Belongs(s, s.log[j]);
      NetCountsIds(s.log, key);
    }
  }

  lemma CallersAreLogged(s: State, key: Key)
    requires OncePerCall(s) && EntriesBelong(s) && AllDone(s, key) && key.name != ""
    ensures Callers(s, key) == Ids(s.log, key)
  {
    assert forall j :: 0 <= j < |s.log| ==> Belongs(s, s.log[j]);
    forall i | i in Callers(s, key)
      ensures i in Ids(s.log, key)
    {
      assert HasWritten(s.processes[i]) && InLog(s.log, i);
      var j :| 0 <= j < |s.log| && s.log[j].id == i;
      assert Belongs(s, s.log[j]);
    }
  }

  // ---------------------------------------------------------------- the code, run on its own

  const POLL_MS := 100

  class RateLimitStore {
    const config: Config
    var now: Time
    var hits: Rows<Key, Hits>
    var locks: Rows<Key, nat>
    var tickets: nat

    /** Every lock expires. */
    ghost predicate Valid()
      reads this
    {
      forall key :: key in locks ==> locks[key].expiresAt.Some?
    }

    constructor (config: Config)
      ensures Valid() && this.config == config && now == 0 && hits == map[] && locks == map[] && tickets == 0
    {
      this.config := config;
      now, hits, locks, tickets := 0, map[], map[], 0;
    }

    /** Time passes while the store waits for the cache. */
    method Await()
      modifies `now
      ensures old(now) <= now
    {
      var later: Time :| now <= later;
      now := later;
    }

    /** Waits for the lock, looking again every POLL_MS; it never waits longer than the lock lives. */
    method Acquire(key: Key)
      requires Valid()
      modifies `now, `locks, `tickets
      ensures Valid()
      ensures Lookup(old(locks), key, now).None?
      ensures locks == Write(old(locks), key, old(tickets), Ttl(config), now) && tickets == old(tickets) + 1
      ensures now == old(now)
           || (key in old(locks) && old(now) < now < old(locks)[key].expiresAt.value + 100)
    {
      while Lookup(locks, key, now).Some?
        invariant locks == old(locks) && tickets == old(tickets) && old(now) <= now
        invariant now == old(now)
               || (key in locks && old(now) < now < locks[key].expiresAt.value + 100)
        decreases if key in locks then locks[key].expiresAt.value - now else 0
      {
        now := now + POLL_MS;
      }
      locks := Write(locks, key, tickets, Ttl(config), now);
      tickets := tickets + 1;
    }

    method ReleaseLock(key: Key)
      requires Valid()
      modifies `locks
      ensures Valid() && locks == Delete(old(locks), key)
    {
      locks := Delete(locks, key);
    }

    method Get(key: Key) returns (info: Option<Hits>)
      ensures info == if key.name == "" then None else Lookup(hits, key, now)
    {
      if key.name == "" {
        return None;
      }
      info := Lookup(hits, key, now);
    }

    method Set(key: Key, info: Hits)
      modifies `hits
      ensures hits == if key.name == "" then old(hits) else Write(old(hits), key, info, Ttl(config), now)
    {
      if key.name == "" {
        return;
      }
      hits := Write(hits, key, info, Ttl(config), now);
    }

    /** What `Increment` and `Decrement` leave behind is what the call does on its own, at the
        times at which it read, judged and wrote. */
    ghost predicate Made(before: Rows<Key, Hits>, entry: Entry, op: Op, key: Key, calledAt: Time)
      reads this
    {
      && hits == Apply(config, before, entry)
      && entry.call == Call(op, key, calledAt)
      && calledAt <= entry.readAt <= entry.judgedAt <= entry.writtenAt <= now
      && entry.result == Judge(config, entry.call, Lookup(before, key, entry.readAt), entry.judgedAt)
    }

    method Increment(key: Key) returns (info: Hits, ghost entry: Entry)
      requires Valid()
      modifies this
      ensures Valid()
      ensures key.name == "" ==> info == Hits(1, old(now) + config.windowMs) && hits == old(hits) && locks == old(locks)
      ensures key.name != "" ==> Made(old(hits), entry, Op.Increment, key, old(now)) && entry.result == Some(info)
      ensures key.name != "" ==> locks == Delete(old(locks), key)
    {
      var calledAt := now;
      var call := Call(Op.Increment, key, calledAt);
      var defaultInfo := Hits(1, calledAt + config.windowMs);
      entry := Entry(0, tickets, call, now, now, now, None);
      if key.name == "" {
        return defaultInfo, entry;
      }
      Acquire(key);
      Await();
      var seen := Get(key);
      entry := entry.(readAt := now);
      Await();
      info := if seen.None? || seen.value.resetTime < now then defaultInfo
              else Hits(seen.value.total + 1, seen.value.resetTime);
      entry := entry.(judgedAt := now, result := Some(info));
      Await();
      Set(key, info);
      entry := entry.(writtenAt := now);
      Await();
      ReleaseLock(key);
    }

    method Decrement(key: Key) returns (ghost entry: Entry)
      requires Valid()
      modifies this
      ensures Valid()
      ensures key.name == "" ==> hits == old(hits) && locks == old(locks)
      ensures key.name != "" ==> Made(old(hits), entry, Op.Decrement, key, old(now))
      ensures key.name != "" ==> locks == Delete(old(locks), key)
    {
      entry := Entry(0, tickets, Call(Op.Decrement, key, now), now, now, now, None);
      if key.name == "" {
        return;
      }
      Acquire(key);
      Await();
      var row := Get(key);
      entry := entry.(readAt := now);
      Await();
      entry := entry.(judgedAt := now, writtenAt := now);
      if row.Some? {
        var total := if row.value.total == 0 then 0 else row.value.total - 1;
        entry := entry.(result := Some(Hits(total, row.value.resetTime)));
        Await();
        Set(key, Hits(total, row.value.resetTime));
        entry := entry.(writtenAt := now);
        Await();
      }
      ReleaseLock(key);
    }

    method ResetKey(key: Key)
      modifies `hits
      ensures hits == Delete(old(hits), key)
    {
      hits := Delete(hits, key);
    }
  }
}
