/** How long the rate-limit store's count of a key can be taken at its word. */
module HitCounts {

  import opened Common
  import opened Cache
  import opened RateLimit
  import opened OutstayedLock

  /** The live row counts the increments less the decrements, and is missing when there are none. */
  ghost predicate Counted(s: State, key: Key) {
    var stored := Lookup(s.hits, key, s.now);
    && (stored.Some? <==> AnyIncrement(s.log, key))
    && (stored.Some? ==> stored.value.total == Net(s.log, key))
  }

  // ---------------------------------------------------------------- a call that nobody disturbs

  /** All steps of the i-th call. */
  ghost function WholeCall(op: Op, key: Key, i: nat): seq<Event> {
    [Begin(op, key), Advance(i), Advance(i), Advance(i)] + ([Advance(i)] + [Advance(i)])
  }

  ghost function Written(config: Config, s: State, op: Op, key: Key): Option<Hits> {
    Judge(config, Call(op, key, s.now), Lookup(s.hits, key, s.now), s.now)
  }

  /** The state after a call made on its own. */
  ghost function Called(config: Config, s: State, op: Op, key: Key): State {
    var call, next := Call(op, key, s.now), Written(config, s, op, key);
    s.(processes := s.processes + [Process(call, Done(next))],
       hits := Store(config, s.hits, key, next, s.now),
       locks := Delete(s.locks, key),
       tickets := s.tickets + 1,
       log := s.log + [Entry(|s.processes|, s.tickets, call, s.now, s.now, s.now, next)])
  }

  lemma LoneCall(config: Config, s: State, op: Op, key: Key)
    requires key.name != "" && key !in s.locks
    ensures Run(config, s, WholeCall(op, key, |s.processes|)) == Called(config, s, op, key)
  {
    hide Run, Store, Judge;
    var i, call, next := |s.processes|, Call(op, key, s.now), Written(config, s, op, key);
    var s1 := Next(config, s, Begin(op, key));
    assert s1 == s.(processes := s.processes + [Process(call, Waiting)]);
    var s2 := Next(config, s1, Advance(i));
    assert s2.processes == s.processes + [Process(call, Locked(s.now, s.tickets))];
    var s3 := Next(config, s2, Advance(i));
    assert s3.processes == s.processes + [Process(call, Seen(s.now, s.tickets, s.now, Lookup(s.hits, key, s.now)))];
    var s4 := Next(config, s3, Advance(i));
    assert s4.processes == s.processes + [Process(call, Judged(s.now, s.tickets, s.now, s.now, next))];
    var s5 := Next(config, s4, Advance(i));
    assert s5.processes == s.processes + [Process(call, Stage.Written(s.now, next))];
    var s6 := Next(config, s5, Advance(i));
    assert s6.processes == s.processes + [Process(call, Done(next))];
    assert s6.locks == Delete(s.locks, key);
    RunFour(config, s, Begin(op, key), Advance(i), Advance(i), Advance(i), [Advance(i)] + [Advance(i)]);
    RunStep(config, s4, Advance(i), [Advance(i)]);
    RunStep(config, s5, Advance(i), []);
    RunNothing(config, s6);
    assert [Advance(i)] + [] == [Advance(i)];
  }

  lemma {:induction false} RunConcat(config: Config, s: State, first: seq<Event>, second: seq<Event>)
    ensures Run(config, s, first + second) == Run(config, Run(config, s, first), second)
    decreases |first|
  {
    hide Next;
    if first == [] {
      assert first + second == second;
    } else {
      assert (first + second)[0] == first[0] && (first + second)[1..] == first[1..] + second;
      RunConcat(config, Next(config, s, first[0]), first[1..], second);
    }
  }

  // ---------------------------------------------------------------- the count starts again

  /** One call at the start, another one when the span is over. */
  ghost function Spanning(config: Config, key: Key): seq<Event> {
    WholeCall(Op.Increment, key, 0) + ([Tick(Span(config))] + WholeCall(Op.Increment, key, 1))
  }

  lemma SpanningStartsAgain(config: Config, key: Key)
    requires key.name != ""
    ensures var s := Run(config, START, Spanning(config, key));
            && AllDone(s, key) && s.now == Span(config)
            && Net(s.log, key) == 2 && Lookup(s.hits, key, s.now) == Some(Hits(1, s.now + config.windowMs))
  {
    hide Run, WholeCall;
    var first, last := WholeCall(Op.Increment, key, 0), WholeCall(Op.Increment, key, 1);
    var s1 := Called(config, START, Op.Increment, key);
    LoneCall(config, START, Op.Increment, key);
    var s2 := Next(config, s1, Tick(Span(config)));
    var s3 := Called(config, s2, Op.Increment, key);
    LoneCall(config, s2, Op.Increment, key);
    RunConcat(config, START, first, [Tick(Span(config))] + last);
    RunStep(config, s1, Tick(Span(config)), last);
    assert s3.log[..1] == [s3.log[0]] && [s3.log[0]][..0] == [];
    assert Net(s3.log[..1], key) == 1;
  }

  /** When all calls on a key have finished at most `limit` milliseconds after the first, the stored
      count is right in every run exactly when `limit` is below the span. */
  lemma CountedExactlyWithinSpan(config: Config, key: Key, limit: nat)
    requires key.name != ""
    ensures limit < Span(config)
       <==> forall events, from: Time ::
              CalledFrom(Run(config, START, events), key, from) && AllDone(Run(config, START, events), key)
              && Run(config, START, events).now <= from + limit
              ==> Counted(Run(config, START, events), key)
  {
    hide Run, Net, AnyIncrement, AllDone;
    if limit < Span(config) {
      forall events, from: Time | CalledFrom(Run(config, START, events), key, from)
                                  && AllDone(Run(config, START, events), key)
                            && Run(config, START, events).now <= from + limit
        ensures Counted(Run(config, START, events), key)
      {
        NoHitIsLost(config, events, key, from);
      }
    } else {
      var s := Run(config, START, Spanning(config, key));
      SpanningStartsAgain(config, key);
      assert CalledFrom(s, key, 0);
      assert !Counted(s, key);
    }
  }
}
