/** Why a consumer of a grant is told what it is told, in every run. */
module GrantOutcomes {

  import opened Common
  import opened Cache
  import opened Grants

  /** The state in which the n-th event is handled. */
  ghost function Before(rules: Rules, events: seq<Event>, n: nat): State
    requires n <= |events|
  {
    Run(rules, START, events[..n])
  }

  /** The a-th event is the start of the i-th consumer. */
  ghost predicate StartsAt(rules: Rules, events: seq<Event>, i: nat, c: Consumer, a: nat) {
    a < |events| && events[a] == Start(c.hash, c.app) && |Before(rules, events, a).consumers| == i
  }

  ghost predicate Refused(rules: Rules, events: seq<Event>, i: nat, c: Consumer, a: nat) {
    StartsAt(rules, events, i, c, a)
    && var s := Before(rules, events, a); Holds(s.store, UsedKey(c.hash), s.now)
  }

  ghost predicate Claims(rules: Rules, events: seq<Event>, i: nat, c: Consumer, a: nat) {
    StartsAt(rules, events, i, c, a)
    && var s := Before(rules, events, a); !Holds(s.store, UsedKey(c.hash), s.now)
  }

  /** The f-th event is the consumer's reading of the grant, and this is what it finds. */
  ghost predicate Reads(rules: Rules, events: seq<Event>, i: nat, c: Consumer, f: nat, found: Option<Payload>) {
    && f < |events| && events[f] == Advance(i)
    && var s := Before(rules, events, f);
       && i < |s.consumers| && s.consumers[i].stage.Claimed?
       && Finds(s.store, c.hash, s.now, found)
  }

  /** The d-th event is the consumer's last step, and this is its outcome. */
  ghost predicate Judges(rules: Rules, events: seq<Event>, i: nat, c: Consumer, d: nat, found: Option<Payload>,
                         outcome: Outcome)
  {
    && d < |events| && events[d] == Advance(i)
    && var s := Before(rules, events, d);
       && i < |s.consumers| && s.consumers[i].stage.Cleared?
       && Verdict(found, c.app, s.now, outcome)
  }

  ghost predicate WasRefused(rules: Rules, events: seq<Event>, i: nat, c: Consumer) {
    exists a: nat :: Refused(rules, events, i, c, a)
  }

  ghost predicate HasClaimed(rules: Rules, events: seq<Event>, i: nat, c: Consumer) {
    exists a: nat :: Claims(rules, events, i, c, a)
  }

  ghost predicate HasRead(rules: Rules, events: seq<Event>, i: nat, c: Consumer, found: Option<Payload>) {
    exists f: nat :: Reads(rules, events, i, c, f, found)
  }

  ghost predicate HasJudged(rules: Rules, events: seq<Event>, i: nat, c: Consumer, found: Option<Payload>,
                            outcome: Outcome)
  {
    exists d: nat :: Judges(rules, events, i, c, d, found, outcome)
  }

  /** How the consumer got where it is. */
  ghost predicate Explained(rules: Rules, events: seq<Event>, i: nat, c: Consumer) {
    match c.stage
    case Claimed => HasClaimed(rules, events, i, c)
    case Fetched(found) => HasClaimed(rules, events, i, c) && HasRead(rules, events, i, c, found)
    case Cleared(found) => HasClaimed(rules, events, i, c) && HasRead(rules, events, i, c, found)
    case Finished(outcome) =>
      if outcome.AlreadyUsed? then WasRefused(rules, events, i, c)
      else
        && HasClaimed(rules, events, i, c)
        && exists found :: HasRead(rules, events, i, c, found) && HasJudged(rules, events, i, c, found, outcome)
  }

  lemma BeforeStays(rules: Rules, events: seq<Event>, e: Event, n: nat)
    requires n <= |events|
    ensures Before(rules, events + [e], n) == Before(rules, events, n)
  {
    assert (events + [e])[..n] == events[..n];
  }

  /** What has happened stays so. */
  lemma FactsStay(rules: Rules, events: seq<Event>, e: Event, i: nat, c: Consumer)
    ensures WasRefused(rules, events, i, c) ==> WasRefused(rules, events + [e], i, c)
    ensures HasClaimed(rules, events, i, c) ==> HasClaimed(rules, events + [e], i, c)
    ensures forall found :: HasRead(rules, events, i, c, found) ==> HasRead(rules, events + [e], i, c, found)
    ensures forall found, outcome :: HasJudged(rules, events, i, c, found, outcome)
                                 ==> HasJudged(rules, events + [e], i, c, found, outcome)
  {
    hide Run, Finds, Verdict, Holds, Before;
    var more := events + [e];
    forall n: nat | n < |events|
      ensures Before(rules, more, n) == Before(rules, events, n) && more[n] == events[n]
    {
      BeforeStays(rules, events, e, n);
    }
    if a: nat :| Refused(rules, events, i, c, a) { assert Refused(rules, more, i, c, a); }
    if a: nat :| Claims(rules, events, i, c, a) { assert Claims(rules, more, i, c, a); }
    forall found | HasRead(rules, events, i, c, found)
      ensures HasRead(rules, more, i, c, found)
    {
      var f: nat :| Reads(rules, events, i, c, f, found);
      assert Reads(rules, more, i, c, f, found);
    }
    forall found, outcome | HasJudged(rules, events, i, c, found, outcome)
      ensures HasJudged(rules, more, i, c, found, outcome)
    {
      var d: nat :| Judges(rules, events, i, c, d, found, outcome);
      assert Judges(rules, more, i, c, d, found, outcome);
    }
  }

  lemma ExplainedStays(rules: Rules, events: seq<Event>, e: Event, i: nat, c: Consumer)
    requires Explained(rules, events, i, c)
    ensures Explained(rules, events + [e], i, c)
  {
    hide WasRefused, HasClaimed, HasRead, HasJudged;
    FactsStay(rules, events, e, i, c);
  }

  lemma NewcomerExplained(rules: Rules, events: seq<Event>, hash: Hash, app: Option<Did>)
    ensures var s, t := Run(rules, START, events), Next(rules, Run(rules, START, events), Start(hash, app));
            |t.consumers| == |s.consumers| + 1
            && Explained(rules, events + [Start(hash, app)], |s.consumers|, t.consumers[|s.consumers|])
  {
    hide Run;
    var s, n, more := Run(rules, START, events), |events|, events + [Start(hash, app)];
    var t := Next(rules, s, Start(hash, app));
    var i := |s.consumers|;
    assert more[..n] == events && more[n] == Start(hash, app);
    if t.consumers[i].stage.Claimed? {
      assert Claims(rules, more, i, t.consumers[i], n);
    } else {
      assert Refused(rules, more, i, t.consumers[i], n);
    }
  }

  lemma StepExplained(rules: Rules, events: seq<Event>, i: nat)
    requires i < |Run(rules, START, events).consumers|
    requires Explained(rules, events, i, Run(rules, START, events).consumers[i])
    ensures var t := Next(rules, Run(rules, START, events), Advance(i));
            i < |t.consumers| && Explained(rules, events + [Advance(i)], i, t.consumers[i])
  {
    hide Run, HasClaimed, WasRefused;
    var s, n, more := Run(rules, START, events), |events|, events + [Advance(i)];
    var c, d := s.consumers[i], Next(rules, s, Advance(i)).consumers[i];
    assert more[..n] == events && more[n] == Advance(i);
    FactsStay(rules, events, Advance(i), i, c);
    SameFacts(rules, more, i, c, d);
    match c.stage
    case Claimed =>
      DecidesByVerdict(s.store, c.hash, s.now, c.app, s.now);
      assert Reads(rules, more, i, d, n, d.stage.found);
    case Fetched(found) =>
    case Cleared(found) =>
      DecideIsVerdict(found, c.app, s.now);
      assert Judges(rules, more, i, d, n, found, d.stage.outcome);
    case Finished(outcome) =>
  }

  lemma DecideIsVerdict(found: Option<Payload>, app: Option<Did>, now: Time)
    ensures Verdict(found, app, now, Decide(found, app, now)) && !Decide(found, app, now).AlreadyUsed?
  {
  }

  /** The facts are about the grant asked for and who asked. */
  lemma SameFacts(rules: Rules, events: seq<Event>, i: nat, c: Consumer, d: Consumer)
    requires c.hash == d.hash && c.app == d.app
    ensures WasRefused(rules, events, i, c) ==> WasRefused(rules, events, i, d)
    ensures HasClaimed(rules, events, i, c) ==> HasClaimed(rules, events, i, d)
    ensures forall found :: HasRead(rules, events, i, c, found) ==> HasRead(rules, events, i, d, found)
    ensures forall found, outcome :: HasJudged(rules, events, i, c, found, outcome)
                                 ==> HasJudged(rules, events, i, d, found, outcome)
  {
    hide Before, Finds, Verdict, Holds;
    if a: nat :| Refused(rules, events, i, c, a) { assert Refused(rules, events, i, d, a); }
    if a: nat :| Claims(rules, events, i, c, a) { assert Claims(rules, events, i, d, a); }
    forall found | HasRead(rules, events, i, c, found)
      ensures HasRead(rules, events, i, d, found)
    {
      var f: nat :| Reads(rules, events, i, c, f, found);
      assert Reads(rules, events, i, d, f, found);
    }
    forall found, outcome | HasJudged(rules, events, i, c, found, outcome)
      ensures HasJudged(rules, events, i, d, found, outcome)
    {
      var k: nat :| Judges(rules, events, i, c, k, found, outcome);
      assert Judges(rules, events, i, d, k, found, outcome);
    }
  }

  /** In every run each consumer stands where its own steps have brought it: it is told that the
      grant has been used exactly when it found the marker, and otherwise gets its verdict on what it
      read, at the time of its last step. */
  lemma {:induction false} OutcomesAreExplained(rules: Rules, events: seq<Event>)
    ensures var s := Run(rules, START, events);
            forall i :: 0 <= i < |s.consumers| ==> Explained(rules, events, i, s.consumers[i])
    decreases |events|
  {
    hide Explained, Next;
    if events == [] {
      NobodyYet(rules);
    } else {
      var n := |events| - 1;
      var before, e := events[..n], events[n];
      assert events == before + [e];
      OutcomesAreExplained(rules, before);
      RunSnoc(rules, before, e);
      hide Run;
      var s, t := Run(rules, START, before), Run(rules, START, events);
      OthersStay(rules, s, e);
      forall i | 0 <= i < |t.consumers|
        ensures Explained(rules, events, i, t.consumers[i])
      {
        if i == |s.consumers| {
          NewcomerExplained(rules, before, e.hash, e.app);
        } else if e == Advance(i) {
          StepExplained(rules, before, i);
        } else {
          ExplainedStays(rules, before, e, i, s.consumers[i]);
        }
      }
    }
  }

  lemma NobodyYet(rules: Rules)
    ensures |Run(rules, START, []).consumers| == 0
  {
  }

  lemma RunSnoc(rules: Rules, events: seq<Event>, e: Event)
    ensures Run(rules, START, events + [e]) == Next(rules, Run(rules, START, events), e)
  {
    RunConcat(rules, START, events, [e]);
    var s := Run(rules, START, events);
    assert [e][1..] == [];
    assert Run(rules, s, [e]) == Run(rules, Next(rules, s, e), []);
  }

  lemma OthersStay(rules: Rules, s: State, e: Event)
    ensures var t := Next(rules, s, e);
            && |s.consumers| <= |t.consumers| <= |s.consumers| + 1
            && (|t.consumers| > |s.consumers| ==> e.Start?)
            && forall i :: 0 <= i < |s.consumers| && e != Advance(i) ==> t.consumers[i] == s.consumers[i]
  {
  }

  // ---------------------------------------------------------------- what is issued

  ghost predicate CreatedAt(rules: Rules, events: seq<Event>, hash: Hash, payload: Payload, k: nat) {
    && k < |events| && events[k] == Create(hash, payload.appDid, payload.content)
    && payload.createdAt == Before(rules, events, k).now
    && payload.expiresAt == payload.createdAt + rules.createTtl
  }

  ghost predicate WasCreated(rules: Rules, events: seq<Event>, hash: Hash, payload: Payload) {
    exists k: nat :: CreatedAt(rules, events, hash, payload, k)
  }

  /** In every run, what is issued for a grant is what it was created with, at that time. */
  lemma {:induction false} IssuedAsCreated(rules: Rules, events: seq<Event>)
    ensures var s := Run(rules, START, events);
            forall hash :: hash in s.issued ==> WasCreated(rules, events, hash, s.issued[hash])
    decreases |events|
  {
    hide WasCreated;
    if events != [] {
      var n := |events| - 1;
      var before, e := events[..n], events[n];
      assert events == before + [e];
      IssuedAsCreated(rules, before);
      RunSnoc(rules, before, e);
      hide Run;
      var s, t := Run(rules, START, before), Run(rules, START, events);
      forall hash | hash in t.issued
        ensures WasCreated(rules, events, hash, t.issued[hash])
      {
        if hash in s.issued && t.issued[hash] == s.issued[hash] {
          WasCreatedStays(rules, before, e, hash, s.issued[hash]);
        } else {
          CreatedNow(rules, before, e, hash);
        }
      }
    }
  }

  lemma WasCreatedStays(rules: Rules, events: seq<Event>, e: Event, hash: Hash, payload: Payload)
    requires WasCreated(rules, events, hash, payload)
    ensures WasCreated(rules, events + [e], hash, payload)
  {
    hide Before;
    var k: nat :| CreatedAt(rules, events, hash, payload, k);
    BeforeStays(rules, events, e, k);
    assert CreatedAt(rules, events + [e], hash, payload, k);
  }

  lemma CreatedNow(rules: Rules, events: seq<Event>, e: Event, hash: Hash)
    requires var s, t := Run(rules, START, events), Next(rules, Run(rules, START, events), e);
             hash in t.issued && !(hash in s.issued && t.issued[hash] == s.issued[hash])
    ensures WasCreated(rules, events + [e], hash, Next(rules, Run(rules, START, events), e).issued[hash])
  {
    hide Run;
    var n, more := |events|, events + [e];
    assert more[..n] == events && more[n] == e;
    assert CreatedAt(rules, more, hash, Next(rules, Run(rules, START, events), e).issued[hash], n);
  }

  /** Creating a grant with a hash that nobody has used issues it. */
  lemma CreatingIssues(rules: Rules, events: seq<Event>, hash: Hash, appDid: Did, content: string)
    requires rules.createTtl > 0 && Unused(Run(rules, START, events), hash)
    ensures var s := Run(rules, START, events);
            var payload := Payload(appDid, content, s.now, s.now + rules.createTtl);
            var t := Next(rules, s, Create(hash, appDid, content));
            hash in t.issued && t.issued[hash] == payload && Finds(t.store, hash, t.now, Some(payload))
  {
    RedeemedIsGenuine(rules, events);
    hide Run;
  }
}
