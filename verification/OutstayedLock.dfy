/** The rate-limit store when a lock expires under its holder: calls act as if made one by one exactly
    when they stay within their lock's time to live. */
module OutstayedLock {

  import opened Common
  import opened Cache
  import opened RateLimit

  /** One call has read when its lock expires; a second one then runs to its end before the first
      goes on. */
  ghost function Outstaying(config: Config, key: Key): seq<Event> {
    [Begin(Op.Increment, key), Advance(0), Advance(0), Tick(Ttl(config))]
    + ([Begin(Op.Increment, key), Advance(1), Advance(1), Advance(1)]
       + ([Advance(1), Advance(1), Advance(0), Advance(0)] + [Advance(0)]))
  }

  lemma RunStep(config: Config, s: State, e: Event, rest: seq<Event>)
    ensures Run(config, s, [e] + rest) == Run(config, Next(config, s, e), rest)
  {
    assert ([e] + rest)[1..] == rest;
  }

  lemma RunFour(config: Config, s: State, a: Event, b: Event, c: Event, d: Event, rest: seq<Event>)
    ensures Run(config, s, [a, b, c, d] + rest)
         == Run(config, Next(config, Next(config, Next(config, Next(config, s, a), b), c), d), rest)
  {
    hide Next;
    var s1 := Next(config, s, a);
    var s2 := Next(config, s1, b);
    assert [a, b, c, d] + rest == [a] + ([b] + ([c] + ([d] + rest)));
    RunStep(config, s, a, [b] + ([c] + ([d] + rest)));
    RunStep(config, s1, b, [c] + ([d] + rest));
    RunStep(config, s2, c, [d] + rest);
    RunStep(config, Next(config, s2, c), d, rest);
  }

  /** The state after one or two calls on the key, with these stages, rows and entries. */
  ghost predicate At(s: State, now: Time, key: Key, first: Stage, second: Option<Process>, row: Option<Row<Hits>>,
                     log: seq<Entry>)
  {
    && s.now == now && s.log == log
    && s.processes == [Process(Call(Op.Increment, key, 0), first)] + (if second.None? then [] else [second.value])
    && (row.None? ==> key !in s.hits)
    && (row.Some? ==> key in s.hits && s.hits[key] == row.value)
  }

  /** The first call has taken the lock and read, and the lock has expired. */
  lemma FirstReads(config: Config, key: Key) returns (s: State)
    requires key.name != ""
    ensures forall rest :: Run(config, START,
                               [Begin(Op.Increment, key), Advance(0), Advance(0), Tick(Ttl(config))] + rest)
                           == Run(config, s, rest)
    ensures At(s, Ttl(config), key, Seen(0, 0, 0, None), None, None, [])
    ensures s.locks == map[key := Row(0, Some(Ttl(config)))] && s.tickets == 1
  {
    var s1 := Next(config, START, Begin(Op.Increment, key));
    assert s1.processes == [Process(Call(Op.Increment, key, 0), Waiting)];
    var s2 := Next(config, s1, Advance(0));
    assert s2.processes == [Process(Call(Op.Increment, key, 0), Locked(0, 0))];
    var s3 := Next(config, s2, Advance(0));
    assert s3.processes == [Process(Call(Op.Increment, key, 0), Seen(0, 0, 0, None))];
    s := Next(config, s3, Tick(Ttl(config)));
    forall rest
      ensures Run(config, START, [Begin(Op.Increment, key), Advance(0), Advance(0), Tick(Ttl(config))] + rest)
           == Run(config, s, rest)
    {
      RunFour(config, START, Begin(Op.Increment, key), Advance(0), Advance(0), Tick(Ttl(config)), rest);
    }
  }

  /** The second call takes the expired lock, and judges. */
  lemma SecondJudges(config: Config, key: Key, s: State) returns (t: State)
    requires key.name != "" && At(s, Ttl(config), key, Seen(0, 0, 0, None), None, None, [])
    requires s.locks == map[key := Row(0, Some(Ttl(config)))] && s.tickets == 1
    ensures forall rest :: Run(config, s, [Begin(Op.Increment, key), Advance(1), Advance(1), Advance(1)] + rest)
                           == Run(config, t, rest)
    ensures var now := Ttl(config);
            var hits := Hits(1, now + config.windowMs);
            At(t, now, key, Seen(0, 0, 0, None),
               Some(Process(Call(Op.Increment, key, now), Judged(now, 1, now, now, Some(hits)))), None, [])
  {
    var now := Ttl(config);
    var p, call := s.processes[0], Call(Op.Increment, key, now);
    var s1 := Next(config, s, Begin(Op.Increment, key));
    assert s1.processes == [p, Process(call, Waiting)];
    var s2 := Next(config, s1, Advance(1));
    assert s2.processes == [p, Process(call, Locked(now, 1))];
    var s3 := Next(config, s2, Advance(1));
    assert s3.processes == [p, Process(call, Seen(now, 1, now, None))];
    t := Next(config, s3, Advance(1));
    assert t.processes == [p, Process(call, Judged(now, 1, now, now, Some(Hits(1, now + config.windowMs))))];
    forall rest
      ensures Run(config, s, [Begin(Op.Increment, key), Advance(1), Advance(1), Advance(1)] + rest)
              == Run(config, t, rest)
    {
      RunFour(config, s, Begin(Op.Increment, key), Advance(1), Advance(1), Advance(1), rest);
    }
  }

  /** The second call writes and ends; then the first judges by what it had read, and writes. */
  lemma FirstOverwrites(config: Config, key: Key, s: State) returns (t: State)
    requires key.name != ""
    requires var now := Ttl(config);
             At(s, now, key, Seen(0, 0, 0, None),
                Some(Process(Call(Op.Increment, key, now),
                             Judged(now, 1, now, now, Some(Hits(1, now + config.windowMs))))),
                None, [])
    ensures forall rest :: Run(config, s, [Advance(1), Advance(1), Advance(0), Advance(0)] + rest)
                           == Run(config, t, rest)
    ensures var now := Ttl(config);
            var one, other := Hits(1, now + config.windowMs), Hits(1, config.windowMs);
            At(t, now, key, Written(0, Some(other)), Some(Process(Call(Op.Increment, key, now), Done(Some(one)))),
               Some(Row(other, Some(now + now))),
               [Entry(1, 1, Call(Op.Increment, key, now), now, now, now, Some(one)),
                Entry(0, 0, Call(Op.Increment, key, 0), 0, now, now, Some(other))])
  {
    var now := Ttl(config);
    var one, other := Hits(1, now + config.windowMs), Hits(1, config.windowMs);
    var first, second := Call(Op.Increment, key, 0), Call(Op.Increment, key, now);
    var s1 := Next(config, s, Advance(1));
    assert s1.processes == [Process(first, Seen(0, 0, 0, None)), Process(second, Written(now, Some(one)))];
    var s2 := Next(config, s1, Advance(1));
    assert s2.processes == [Process(first, Seen(0, 0, 0, None)), Process(second, Done(Some(one)))];
    var s3 := Next(config, s2, Advance(0));
    assert s3.processes == [Process(first, Judged(0, 0, 0, now, Some(other))), Process(second, Done(Some(one)))];
    t := Next(config, s3, Advance(0));
    assert t.processes == [Process(first, Written(0, Some(other))), Process(second, Done(Some(one)))];
    forall rest
      ensures Run(config, s, [Advance(1), Advance(1), Advance(0), Advance(0)] + rest) == Run(config, t, rest)
    {
      RunFour(config, s, Advance(1), Advance(1), Advance(0), Advance(0), rest);
    }
  }

  /** Without exclusion a hit can be lost: two calls have finished, one after the other they would
      leave 2, and the live row says 1. */
  lemma OutstayedLockLosesAHit(config: Config, key: Key)
    requires key.name != ""
    ensures var s := Run(config, START, Outstaying(config, key));
            && AllDone(s, key) && AllIncrement(s, key) && |Callers(s, key)| == 2
            && Lookup(s.hits, key, s.now) == Some(Hits(1, config.windowMs))
            && Net(s.log, key) == 2 && !SameRow(s.hits, Serial(config, s.log), key)
            && s.now == Ttl(config)
  {
    hide Run, At;
    var s1 := FirstReads(config, key);
    var s2 := SecondJudges(config, key, s1);
    var s3 := FirstOverwrites(config, key, s2);
    var s4 := Next(config, s3, Advance(0));
    RunStep(config, s3, Advance(0), []);
    RunNothing(config, s4);
    assert [Advance(0)] + [] == [Advance(0)];
    LastStep(config, key, s3);
  }

  lemma RunNothing(config: Config, s: State)
    ensures Run(config, s, []) == s
  {
  }

  lemma LastStep(config: Config, key: Key, s: State)
    requires var now := Ttl(config);
             var one, other := Hits(1, now + config.windowMs), Hits(1, config.windowMs);
             At(s, now, key, Written(0, Some(other)), Some(Process(Call(Op.Increment, key, now), Done(Some(one)))),
                Some(Row(other, Some(now + now))),
                [Entry(1, 1, Call(Op.Increment, key, now), now, now, now, Some(one)),
                 Entry(0, 0, Call(Op.Increment, key, 0), 0, now, now, Some(other))])
    ensures var t := Next(config, s, Advance(0));
            && AllDone(t, key) && AllIncrement(t, key) && |Callers(t, key)| == 2
            && Lookup(t.hits, key, t.now) == Some(Hits(1, config.windowMs))
            && Net(t.log, key) == 2 && !SameRow(t.hits, Serial(config, t.log), key)
            && t.now == s.now
  {
    var t := Next(config, s, Advance(0));
    assert |t.processes| == 2 && t.log == s.log && t.hits == s.hits;
    assert Callers(t, key) == {0, 1};
    assert t.log[..1] == [t.log[0]] && [t.log[0]][..0] == [];
    assert Net(t.log[..1], key) == 1;
    assert Serial(config, t.log[..1]) == Apply(config, map[], t.log[0]);
  }

  // ---------------------------------------------------------------- how long a call may take

  /** At every moment of the run, whoever is in the key's critical section has been there for at most
      this long. */
  ghost predicate HeldAtMost(config: Config, s: State, events: seq<Event>, key: Key, limit: nat)
    decreases |events|
  {
    && (forall i :: Inside(s, i, key) ==> s.now <= s.processes[i].stage.since + limit)
    && (events != [] ==> HeldAtMost(config, Next(config, s, events[0]), events[1..], key, limit))
  }

  ghost predicate SerialAfter(config: Config, events: seq<Event>, key: Key) {
    var s := Run(config, START, events);
    SameRow(s.hits, Serial(config, s.log), key)
  }

  lemma {:induction false} BrieflyHeldIsTimely(config: Config, s: State, events: seq<Event>, key: Key, limit: nat)
    requires HeldAtMost(config, s, events, key, limit) && limit < Ttl(config)
    ensures TimelyRun(config, s, events, key)
    decreases |events|
  {
    hide Next, Inside;
    if events != [] { BrieflyHeldIsTimely(config, Next(config, s, events[0]), events[1..], key, limit); }
  }

  lemma {:induction false} ShortRunHoldsBriefly(config: Config, s: State, events: seq<Event>, key: Key, limit: nat)
    requires Run(config, s, events).now <= limit
    ensures HeldAtMost(config, s, events, key, limit)
    decreases |events|
  {
    hide Next;
    RunExtends(config, s, events);
    if events != [] { ShortRunHoldsBriefly(config, Next(config, s, events[0]), events[1..], key, limit); }
  }

  /** Calls that hold the key's lock for at most `limit` milliseconds act as if made one by one, in
      every run, exactly when `limit` is below the lock's time to live. */
  lemma SerialExactlyWhenHeldBriefly(config: Config, key: Key, limit: nat)
    requires key.name != ""
    ensures limit < Ttl(config)
       <==> forall events :: HeldAtMost(config, START, events, key, limit) ==> SerialAfter(config, events, key)
  {
    hide HeldAtMost, Run, Serial;
    if limit < Ttl(config) {
      forall events | HeldAtMost(config, START, events, key, limit)
        ensures SerialAfter(config, events, key)
      {
        BrieflyHeldIsTimely(config, START, events, key, limit);
        LockedRunsAreSerial(config, events, key);
      }
    } else {
      var events := Outstaying(config, key);
      OutstayedLockLosesAHit(config, key);
      ShortRunHoldsBriefly(config, START, events, key, limit);
      assert !SerialAfter(config, events, key);
    }
  }

  /** Likewise for runs that take at most `limit` milliseconds in all. */
  lemma SerialExactlyWhenShort(config: Config, key: Key, limit: nat)
    requires key.name != ""
    ensures limit < Ttl(config)
       <==> forall events :: Run(config, START, events).now <= limit ==> SerialAfter(config, events, key)
  {
    hide HeldAtMost, Run, Serial;
    if limit < Ttl(config) {
      forall events | Run(config, START, events).now <= limit
        ensures SerialAfter(config, events, key)
      {
        ShortRunHoldsBriefly(config, START, events, key, limit);
        SerialExactlyWhenHeldBriefly(config, key, limit);
      }
    } else {
      var events := Outstaying(config, key);
      OutstayedLockLosesAHit(config, key);
      assert Run(config, START, events).now <= limit && !SerialAfter(config, events, key);
    }
  }
}
