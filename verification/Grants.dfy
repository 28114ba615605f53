/** One-time Google login grants (core/auth): a grant is stored once, and consuming it first claims
    a marker, then fetches and deletes the grant. Consumers may be interleaved and delayed at will. */
module Grants {

  import opened Common
  import opened Cache

  const DEFAULT_TTL := 2 * 60 * 1000

  /** The hash of a grant. Grants are random, so a new one has a hash nobody has used. */
  datatype Hash = Hash(digest: string)

  datatype Key = GrantKey(hash: Hash) | UsedKey(hash: Hash)

  datatype Payload = Payload(appDid: Did, content: string, createdAt: Time, expiresAt: Time)

  datatype Value = Marker(at: Time) | Grant(payload: Payload)

  type Store = Rows<Key, Value>

  datatype Outcome = AlreadyUsed | Expired | WrongApp | Redeemed(payload: Payload)

  /** Where a consumer stands. */
  datatype Stage =
    | Claimed                              // its marker is stored
    | Fetched(found: Option<Payload>)      // it has read the grant
    | Cleared(found: Option<Payload>)      // it has deleted the grant
    | Finished(outcome: Outcome)

  datatype Consumer = Consumer(hash: Hash, app: Option<Did>, stage: Stage)

  /** The times to live passed when creating and when consuming. */
  datatype Rules = Rules(createTtl: nat, consumeTtl: nat)

  datatype State = State(now: Time, store: Store, issued: map<Hash, Payload>, consumers: seq<Consumer>)

  datatype Event =
    | Tick(ms: nat)
    | Create(hash: Hash, appDid: Did, content: string)
    | Start(hash: Hash, app: Option<Did>)
    | Advance(consumer: nat)

  const START := State(0, map[], map[], [])

  // ---------------------------------------------------------------- the steps

  function Fetch(store: Store, hash: Hash, now: Time): Option<Payload> {
    var row := Lookup(store, GrantKey(hash), now);
    if row.Some? && row.value.Grant? then Some(row.value.payload) else None
  }

  function Decide(found: Option<Payload>, app: Option<Did>, now: Time): Outcome {
    if found.None? || found.value.expiresAt < now then Expired
    else if app.Some? && found.value.appDid != app.value then WrongApp
    else Redeemed(found.value)
  }

  /** Nobody has created or tried to consume the grant with this hash. */
  predicate Unused(s: State, hash: Hash) {
    hash !in s.issued && forall i :: 0 <= i < |s.consumers| ==> s.consumers[i].hash != hash
  }

  function Created(rules: Rules, s: State, hash: Hash, appDid: Did, content: string): State {
    if !Unused(s, hash) || Lookup(s.store, GrantKey(hash), s.now).Some? then s
    else
      var payload := Payload(appDid, content, s.now, s.now + rules.createTtl);
      s.(store := Write(s.store, GrantKey(hash), Grant(payload), rules.createTtl, s.now),
         issued := s.issued[hash := payload])
  }

  function Started(rules: Rules, s: State, hash: Hash, app: Option<Did>): State {
    if Lookup(s.store, UsedKey(hash), s.now).Some?
    then s.(consumers := s.consumers + [Consumer(hash, app, Finished(AlreadyUsed))])
    else s.(store := Write(s.store, UsedKey(hash), Marker(s.now), rules.consumeTtl, s.now),
            consumers := s.consumers + [Consumer(hash, app, Claimed)])
  }

  function Advanced(s: State, i: nat): State
    requires i < |s.consumers|
  {
    var c := s.consumers[i];
    match c.stage
    case Claimed => s.(consumers := s.consumers[i := c.(stage := Fetched(Fetch(s.store, c.hash, s.now)))])
    case Fetched(found) => s.(store := Delete(s.store, GrantKey(c.hash)),
                              consumers := s.consumers[i := c.(stage := Cleared(found))])
    case Cleared(found) => s.(consumers := s.consumers[i := c.(stage := Finished(Decide(found, c.app, s.now)))])
    case Finished(_) => s
  }

  function Next(rules: Rules, s: State, e: Event): State {
    match e
    case Tick(ms) => s.(now := s.now + ms)
    case Create(hash, appDid, content) => Created(rules, s, hash, appDid, content)
    case Start(hash, app) => Started(rules, s, hash, app)
    case Advance(i) => if i < |s.consumers| then Advanced(s, i) else s
  }

  function Run(rules: Rules, s: State, events: seq<Event>): State
    decreases |events|
  {
    if events == [] then s else Run(rules, Next(rules, s, events[0]), events[1..])
  }

  // ---------------------------------------------------------------- at most one redemption

  predicate HasRedeemed(c: Consumer) {
    c.stage.Finished? && c.stage.outcome.Redeemed?
  }

  ghost predicate AtMostOnce(s: State) {
    forall i, j :: 0 <= i < j < |s.consumers| && HasRedeemed(s.consumers[i]) && HasRedeemed(s.consumers[j])
      ==> s.consumers[i].hash != s.consumers[j].hash
  }

  /** The marker outlives every grant that can still be there. */
  predicate LongEnough(rules: Rules) {
    rules.consumeTtl == 0 || rules.createTtl <= rules.consumeTtl
  }

  /** The consumer got past the marker. */
  predicate Passed(c: Consumer) {
    !(c.stage.Finished? && c.stage.outcome.AlreadyUsed?)
  }

  predicate GrantLive(s: State, hash: Hash) {
    Lookup(s.store, GrantKey(hash), s.now).Some?
  }

  /** The consumer holds the payload, or can still get it. */
  predicate Candidate(s: State, c: Consumer) {
    match c.stage
    case Claimed => GrantLive(s, c.hash)
    case Fetched(found) => found.Some?
    case Cleared(found) => found.Some?
    case Finished(outcome) => outcome.Redeemed? || outcome.WrongApp?
  }

  ghost predicate OneCandidate(s: State) {
    forall i, j :: 0 <= i < j < |s.consumers| && Candidate(s, s.consumers[i]) && Candidate(s, s.consumers[j])
      ==> s.consumers[i].hash != s.consumers[j].hash
  }

  /** A stored grant was issued, and expires within its time to live. */
  ghost predicate GrantsIssued(rules: Rules, s: State) {
    forall hash :: GrantKey(hash) in s.store ==>
      && hash in s.issued
      && s.store[GrantKey(hash)].value == Grant(s.issued[hash])
      && s.store[GrantKey(hash)].expiresAt == Some(s.issued[hash].expiresAt)
      && s.issued[hash].expiresAt <= s.now + rules.createTtl
  }

  /** Once a consumer has passed, the marker stays at least as long as the grant. */
  ghost predicate MarkerCovers(s: State, hash: Hash) {
    && UsedKey(hash) in s.store
    && var marker := s.store[UsedKey(hash)].expiresAt;
       marker.None? || (hash in s.issued && s.issued[hash].expiresAt <= marker.value)
  }

  ghost predicate Covered(s: State) {
    forall i :: 0 <= i < |s.consumers| && Passed(s.consumers[i]) && GrantLive(s, s.consumers[i].hash)
      ==> MarkerCovers(s, s.consumers[i].hash)
  }

  ghost predicate Invariant(rules: Rules, s: State) {
    GrantsIssued(rules, s) && OneCandidate(s) && Covered(s)
  }

  lemma TickKeeps(rules: Rules, s: State, ms: nat)
    requires Invariant(rules, s)
    ensures Invariant(rules, Next(rules, s, Tick(ms)))
  {
    var t := Next(rules, s, Tick(ms));
    assert forall hash :: GrantLive(t, hash) ==> GrantLive(s, hash);
  }

  lemma CreateKeeps(rules: Rules, s: State, hash: Hash, appDid: Did, content: string)
    requires Invariant(rules, s) && rules.createTtl > 0
    ensures Invariant(rules, Created(rules, s, hash, appDid, content))
  {
    var t := Created(rules, s, hash, appDid, content);
    assert forall h :: h != hash ==> (GrantLive(t, h) <==> GrantLive(s, h));
  }

  lemma StartKeeps(rules: Rules, s: State, hash: Hash, app: Option<Did>)
    requires Invariant(rules, s) && LongEnough(rules)
    ensures Invariant(rules, Started(rules, s, hash, app))
  {
    var t := Started(rules, s, hash, app);
    assert forall h :: GrantLive(t, h) <==> GrantLive(s, h);
    var n := |s.consumers|;
    if Lookup(s.store, UsedKey(hash), s.now).None? && GrantLive(s, hash) {
      // a marker that covers the grant would still be live, so nobody has passed before
      forall i | 0 <= i < n && s.consumers[i].hash == hash
        ensures !Passed(s.consumers[i])
      {
        NobodyPassed(rules, s, i);
      }
    }
    forall i | 0 <= i < |t.consumers| && Passed(t.consumers[i]) && GrantLive(t, t.consumers[i].hash)
      ensures MarkerCovers(t, t.consumers[i].hash)
    {
      if i < n { assert t.consumers[i] == s.consumers[i]; }
    }
  }

  lemma NobodyPassed(rules: Rules, s: State, i: nat)
    requires Invariant(rules, s) && i < |s.consumers|
    requires GrantLive(s, s.consumers[i].hash) && Lookup(s.store, UsedKey(s.consumers[i].hash), s.now).None?
    ensures !Passed(s.consumers[i])
  {
  }

  lemma AdvanceKeeps(rules: Rules, s: State, i: nat)
    requires Invariant(rules, s) && i < |s.consumers|
    ensures Invariant(rules, Advanced(s, i))
  {
    var t := Advanced(s, i);
    assert forall h :: GrantLive(t, h) ==> GrantLive(s, h);
    assert Candidate(t, t.consumers[i]) ==> Candidate(s, s.consumers[i]);
    assert forall j :: 0 <= j < |s.consumers| && Candidate(t, t.consumers[j]) ==> Candidate(s, s.consumers[j]);
  }

  lemma {:induction false} RunKeeps(rules: Rules, s: State, events: seq<Event>)
    requires Invariant(rules, s) && LongEnough(rules) && rules.createTtl > 0
    ensures Invariant(rules, Run(rules, s, events))
    decreases |events|
  {
    if events != [] {
      match events[0] {
        case Tick(ms) => TickKeeps(rules, s, ms);
        case Create(hash, appDid, content) => CreateKeeps(rules, s, hash, appDid, content);
        case Start(hash, app) => StartKeeps(rules, s, hash, app);
        case Advance(i) => if i < |s.consumers| { AdvanceKeeps(rules, s, i); }
      }
      RunKeeps(rules, Next(rules, s, events[0]), events[1..]);
    }
  }

  lemma OneCandidateMeansOnce(s: State)
    requires OneCandidate(s)
    ensures AtMostOnce(s)
  {
    assert forall i :: 0 <= i < |s.consumers| && HasRedeemed(s.consumers[i]) ==> Candidate(s, s.consumers[i]);
  }

  /** Over any run of interleaved, arbitrarily delayed consumers and clock ticks, every grant is
      redeemed at most once, also after its marker has expired. */
  lemma RedeemedAtMostOnce(rules: Rules, events: seq<Event>)
    requires rules.createTtl > 0 && LongEnough(rules)
    ensures AtMostOnce(Run(rules, START, events))
  {
    RunKeeps(rules, START, events);
    OneCandidateMeansOnce(Run(rules, START, events));
  }

  /** The run in which a marker expires before its grant does. */
  ghost function Overtaking(rules: Rules, hash: Hash): seq<Event> {
    [Create(hash, Did("app"), ""), Start(hash, None), Tick(rules.consumeTtl), Start(hash, None)]
    + [Advance(0), Advance(1), Advance(0), Advance(1), Advance(0), Advance(1)]
  }

  lemma RunStep(rules: Rules, s: State, e: Event, rest: seq<Event>)
    ensures Run(rules, s, [e] + rest) == Run(rules, Next(rules, s, e), rest)
  {
    assert ([e] + rest)[1..] == rest;
  }

  lemma {:induction false} RunConcat(rules: Rules, s: State, a: seq<Event>, b: seq<Event>)
    ensures Run(rules, s, a + b) == Run(rules, Run(rules, s, a), b)
    decreases |a|
  {
    hide Next;
    if a == [] {
      assert a + b == b;
    } else {
      RunConcat(rules, Next(rules, s, a[0]), a[1..], b);
      assert (a + b)[1..] == a[1..] + b;
    }
  }

  lemma RunFour(rules: Rules, s: State, a: Event, b: Event, c: Event, d: Event)
    ensures Run(rules, s, [a, b, c, d]) == Next(rules, Next(rules, Next(rules, Next(rules, s, a), b), c), d)
  {
    hide Next;
    RunStep(rules, s, a, [b, c, d]);
    RunStep(rules, Next(rules, s, a), b, [c, d]);
    RunStep(rules, Next(rules, Next(rules, s, a), b), c, [d]);
    RunStep(rules, Next(rules, Next(rules, Next(rules, s, a), b), c), d, []);
    assert [a] + [b, c, d] == [a, b, c, d] && [b] + [c, d] == [b, c, d] && [c] + [d] == [c, d] && [d] + [] == [d];
  }

  /** Two consumers have claimed the same grant. */
  ghost function TwoClaims(rules: Rules, hash: Hash): State {
    var s1 := Next(rules, START, Create(hash, Did("app"), ""));
    var s2 := Next(rules, s1, Start(hash, None));
    var s3 := Next(rules, s2, Tick(rules.consumeTtl));
    Next(rules, s3, Start(hash, None))
  }

  lemma TwoClaimsHold(rules: Rules, hash: Hash)
    requires 0 < rules.consumeTtl < rules.createTtl
    ensures var s := TwoClaims(rules, hash);
            && s.consumers == [Consumer(hash, None, Claimed), Consumer(hash, None, Claimed)]
            && GrantKey(hash) in s.store
            && s.store[GrantKey(hash)] == Row(Grant(Payload(Did("app"), "", 0, rules.createTtl)), Some(rules.createTtl))
            && s.now == rules.consumeTtl
  {
    var grant := Row(Grant(Payload(Did("app"), "", 0, rules.createTtl)), Some(rules.createTtl));
    var s1 := Next(rules, START, Create(hash, Did("app"), ""));
    assert s1.store == map[GrantKey(hash) := grant] && |s1.consumers| == 0;
    var s2 := Next(rules, s1, Start(hash, None));
    assert s2.consumers == [Consumer(hash, None, Claimed)] && s2.store[GrantKey(hash)] == grant;
  }

  lemma OvertakingRedeemsTwice(rules: Rules, hash: Hash)
    requires 0 < rules.consumeTtl < rules.createTtl
    ensures !AtMostOnce(Run(rules, START, Overtaking(rules, hash)))
  {
    TwoClaimsHold(rules, hash);
    OvertakingEnds(rules, hash, TwoClaims(rules, hash), Payload(Did("app"), "", 0, rules.createTtl));
    hide Next, Run, AtMostOnce;
    RunFour(rules, START, Create(hash, Did("app"), ""), Start(hash, None), Tick(rules.consumeTtl), Start(hash, None));
    RunConcat(rules, START,
              [Create(hash, Did("app"), ""), Start(hash, None), Tick(rules.consumeTtl), Start(hash, None)],
              [Advance(0), Advance(1), Advance(0), Advance(1), Advance(0), Advance(1)]);
  }

  lemma OvertakingEnds(rules: Rules, hash: Hash, s: State, payload: Payload)
    requires s.consumers == [Consumer(hash, None, Claimed), Consumer(hash, None, Claimed)]
    requires GrantKey(hash) in s.store && s.store[GrantKey(hash)] == Row(Grant(payload), Some(payload.expiresAt))
    requires s.now < payload.expiresAt
    ensures !AtMostOnce(Run(rules, s, [Advance(0), Advance(1), Advance(0), Advance(1), Advance(0), Advance(1)]))
  {
    var s1 := Next(rules, s, Advance(0));
    var s2 := Next(rules, s1, Advance(1));
    assert s2.consumers == [Consumer(hash, None, Fetched(Some(payload))), Consumer(hash, None, Fetched(Some(payload)))];
    var s3 := Next(rules, s2, Advance(0));
    var s4 := Next(rules, s3, Advance(1));
    assert s4.consumers == [Consumer(hash, None, Cleared(Some(payload))), Consumer(hash, None, Cleared(Some(payload)))];
    var s5 := Next(rules, s4, Advance(0));
    var s6 := Next(rules, s5, Advance(1));
    assert HasRedeemed(s6.consumers[0]) && HasRedeemed(s6.consumers[1]);
    assert s6.consumers[0].hash == s6.consumers[1].hash;
    hide Next, AtMostOnce;
    RunStep(rules, s, Advance(0), [Advance(1), Advance(0), Advance(1), Advance(0), Advance(1)]);
    RunStep(rules, s1, Advance(1), [Advance(0), Advance(1), Advance(0), Advance(1)]);
    RunStep(rules, s2, Advance(0), [Advance(1), Advance(0), Advance(1)]);
    RunStep(rules, s3, Advance(1), [Advance(0), Advance(1)]);
    RunStep(rules, s4, Advance(0), [Advance(1)]);
    RunStep(rules, s5, Advance(1), []);
  }

  /** The condition on the times to live is exact: no run redeems a grant twice if and only if the
      marker never expires or lives at least as long as a grant. */
  lemma TtlConditionIsExact(rules: Rules)
    requires rules.createTtl > 0
    ensures LongEnough(rules) <==> forall events :: AtMostOnce(Run(rules, START, events))
  {
    if LongEnough(rules) {
      forall events
        ensures AtMostOnce(Run(rules, START, events))
      {
        RedeemedAtMostOnce(rules, events);
      }
    } else {
      OvertakingRedeemsTwice(rules, Hash("grant"));
    }
  }

  // ---------------------------------------------------------------- only what was issued

  /** A consumer never holds anything but the payload issued for its hash. */
  predicate Genuine(s: State, c: Consumer) {
    match c.stage
    case Claimed => true
    case Fetched(found) => found.Some? ==> c.hash in s.issued && found.value == s.issued[c.hash]
    case Cleared(found) => found.Some? ==> c.hash in s.issued && found.value == s.issued[c.hash]
    case Finished(outcome) => outcome.Redeemed? ==>
      && c.hash in s.issued && outcome.payload == s.issued[c.hash]
      && (c.app.Some? ==> outcome.payload.appDid == c.app.value)
      && outcome.payload.createdAt <= s.now
  }

  ghost predicate AllGenuine(rules: Rules, s: State) {
    && GrantsIssued(rules, s)
    && (forall i :: 0 <= i < |s.consumers| ==> Genuine(s, s.consumers[i]))
    && (forall hash :: hash in s.issued ==> s.issued[hash].createdAt <= s.now)
  }

  lemma CreateStaysGenuine(rules: Rules, s: State, hash: Hash, appDid: Did, content: string)
    requires AllGenuine(rules, s) && rules.createTtl > 0
    ensures AllGenuine(rules, Created(rules, s, hash, appDid, content))
  {
  }

  lemma StartStaysGenuine(rules: Rules, s: State, hash: Hash, app: Option<Did>)
    requires AllGenuine(rules, s)
    ensures AllGenuine(rules, Started(rules, s, hash, app))
  {
  }

  lemma AdvanceStaysGenuine(rules: Rules, s: State, i: nat)
    requires AllGenuine(rules, s) && i < |s.consumers|
    ensures AllGenuine(rules, Advanced(s, i))
  {
    assert Genuine(s, s.consumers[i]);
    assert Genuine(Advanced(s, i), Advanced(s, i).consumers[i]);
  }

  lemma NextStaysGenuine(rules: Rules, s: State, e: Event)
    requires AllGenuine(rules, s) && rules.createTtl > 0
    ensures AllGenuine(rules, Next(rules, s, e))
  {
    match e {
      case Tick(ms) =>
      case Create(hash, appDid, content) => CreateStaysGenuine(rules, s, hash, appDid, content);
      case Start(hash, app) => StartStaysGenuine(rules, s, hash, app);
      case Advance(i) => if i < |s.consumers| { AdvanceStaysGenuine(rules, s, i); }
    }
  }

  lemma {:induction false} RunStaysGenuine(rules: Rules, s: State, events: seq<Event>)
    requires AllGenuine(rules, s) && rules.createTtl > 0
    ensures AllGenuine(rules, Run(rules, s, events))
    decreases |events|
  {
    hide AllGenuine, Next;
    if events != [] {
      NextStaysGenuine(rules, s, events[0]);
      RunStaysGenuine(rules, Next(rules, s, events[0]), events[1..]);
    }
  }

  /** In every run a redeemed payload is the one issued for the grant, for the app that asked. */
  lemma RedeemedIsGenuine(rules: Rules, events: seq<Event>)
    requires rules.createTtl > 0
    ensures AllGenuine(rules, Run(rules, START, events))
    ensures var s := Run(rules, START, events);
            forall i :: 0 <= i < |s.consumers| && HasRedeemed(s.consumers[i]) ==>
              && s.consumers[i].hash in s.issued
              && s.consumers[i].stage.outcome.payload == s.issued[s.consumers[i].hash]
              && (s.consumers[i].app.Some? ==> s.issued[s.consumers[i].hash].appDid == s.consumers[i].app.value)
  {
    RunStaysGenuine(rules, START, events);
    hide Run;
    var s := Run(rules, START, events);
    assert forall i :: 0 <= i < |s.consumers| ==> Genuine(s, s.consumers[i]);
  }

  // ---------------------------------------------------------------- what a consumer is told

  /** The store holds a row for the key that has not expired. */
  ghost predicate Holds(store: Store, key: Key, now: Time) {
    key in store && (store[key].expiresAt.Some? ==> now < store[key].expiresAt.value)
  }

  /** What reading the grant finds. */
  ghost predicate Finds(store: Store, hash: Hash, now: Time, found: Option<Payload>) {
    && (found.Some? <==> Holds(store, GrantKey(hash), now) && store[GrantKey(hash)].value.Grant?)
    && (found.Some? ==> store[GrantKey(hash)].value == Grant(found.value))
  }

  /** A grant is refused when it was not found or is past its time, then when another application
      asks than it was issued for; otherwise its payload is handed out. */
  ghost predicate Verdict(found: Option<Payload>, app: Option<Did>, now: Time, outcome: Outcome) {
    && (outcome.Expired? <==> found.None? || now > found.value.expiresAt)
    && (outcome.WrongApp? <==>
          found.Some? && now <= found.value.expiresAt && app.Some? && app.value != found.value.appDid)
    && (outcome.Redeemed? <==>
          found.Some? && now <= found.value.expiresAt && (app.None? || app.value == found.value.appDid))
    && (outcome.Redeemed? ==> outcome.payload == found.value)
  }

  lemma DecidesByVerdict(store: Store, hash: Hash, readAt: Time, app: Option<Did>, now: Time)
    ensures Finds(store, hash, readAt, Fetch(store, hash, readAt))
    ensures Verdict(Fetch(store, hash, readAt), app, now, Decide(Fetch(store, hash, readAt), app, now))
  {
  }

  /** What consuming on its own answers. */
  ghost predicate Answers(store: Store, hash: Hash, app: Option<Did>, now: Time, outcome: Outcome) {
    && (outcome.AlreadyUsed? <==> Holds(store, UsedKey(hash), now))
    && (!outcome.AlreadyUsed? ==>
          exists found :: Finds(store, hash, now, found) && Verdict(found, app, now, outcome))
  }

  lemma ConsumingAnswers(store: Store, hash: Hash, app: Option<Did>, now: Time)
    ensures Answers(store, hash, app, now, if Lookup(store, UsedKey(hash), now).Some? then AlreadyUsed
                                           else Decide(Fetch(store, hash, now), app, now))
  {
    DecidesByVerdict(store, hash, now, app, now);
    hide Finds, Fetch, Verdict;
  }

  // ---------------------------------------------------------------- the code, run on its own

  class GrantService {
    const cache: TtlCache<Key, Value>

    constructor (cache: TtlCache<Key, Value>)
      ensures this.cache == cache
    {
      this.cache := cache;
    }

    /** `createDebosGoogleLoginGrant` for a grant with this hash. */
    method CreateGrant(hash: Hash, appDid: Did, content: string, ttl: nat := 0) returns (stored: bool)
      modifies cache
      ensures cache.now == old(cache.now)
      ensures stored <==> Lookup(old(cache.rows), GrantKey(hash), cache.now).None?
      ensures stored && ttl == 0 ==>
        && GrantKey(hash) in cache.rows
        && cache.rows[GrantKey(hash)].value == Grant(Payload(appDid, content, cache.now, cache.now + 120000))
      ensures var life := if ttl == 0 then DEFAULT_TTL else ttl;
              cache.rows == if stored
                            then Write(old(cache.rows), GrantKey(hash),
                                       Grant(Payload(appDid, content, cache.now, cache.now + life)), life, cache.now)
                            else old(cache.rows)
    {
      var life := if ttl == 0 then DEFAULT_TTL else ttl;
      var now := cache.now;
      stored := cache.Set(GrantKey(hash), Grant(Payload(appDid, content, now, now + life)), life, true);
    }

    /** `consumeDebosGoogleLoginGrant`, with nothing in between its steps. */
    method ConsumeGrant(hash: Hash, app: Option<Did>, ttl: nat := DEFAULT_TTL) returns (outcome: Outcome)
      modifies cache
      ensures cache.now == old(cache.now)
      ensures Answers(old(cache.rows), hash, app, cache.now, outcome)
      ensures var used := Lookup(old(cache.rows), UsedKey(hash), cache.now).Some?;
              && outcome
                 == (if used then AlreadyUsed else Decide(Fetch(old(cache.rows), hash, cache.now), app, cache.now))
              && cache.rows == (if used then old(cache.rows)
                                else Delete(Write(old(cache.rows), UsedKey(hash), Marker(cache.now), ttl, cache.now),
                                            GrantKey(hash)))
    {
      var locked := cache.Set(UsedKey(hash), Marker(cache.now), ttl, true);
      if !locked {
        return AlreadyUsed;
      }
      var row := cache.Get(GrantKey(hash));
      var payload := if row.Some? && row.value.Grant? then Some(row.value.payload) else None;
      cache.Del(GrantKey(hash));
      outcome := Decide(payload, app, cache.now);
      ConsumingAnswers(old(cache.rows), hash, app, cache.now);
    }
  }

  /** Consuming on its own is the run of its four steps without anything in between. */
  lemma ConsumeIsARun(rules: Rules, s: State, hash: Hash, app: Option<Did>)
    ensures var n := |s.consumers|;
            var t := Run(rules, s, [Start(hash, app), Advance(n), Advance(n), Advance(n)]);
            var used := Lookup(s.store, UsedKey(hash), s.now).Some?;
            && |t.consumers| == n + 1 && t.consumers[n].stage.Finished?
            && Answers(s.store, hash, app, s.now, t.consumers[n].stage.outcome)
            && t.consumers[n].stage == Finished(if used then AlreadyUsed
                                                else Decide(Fetch(s.store, hash, s.now), app, s.now))
            && t.store == if used then s.store
                          else Delete(Write(s.store, UsedKey(hash), Marker(s.now), rules.consumeTtl, s.now),
                                      GrantKey(hash))
  {
    var n := |s.consumers|;
    ConsumingAnswers(s.store, hash, app, s.now);
    FourSteps(rules, s, hash, app);
    RunFour(rules, s, Start(hash, app), Advance(n), Advance(n), Advance(n));
    hide Run, Next, Answers, Decide, Fetch;
  }

  lemma FourSteps(rules: Rules, s: State, hash: Hash, app: Option<Did>)
    ensures var n := |s.consumers|;
            var t := Next(rules, Next(rules, Next(rules, Next(rules, s, Start(hash, app)), Advance(n)), Advance(n)),
                          Advance(n));
            var used := Lookup(s.store, UsedKey(hash), s.now).Some?;
            && |t.consumers| == n + 1
            && t.consumers[n].stage == Finished(if used then AlreadyUsed
                                                else Decide(Fetch(s.store, hash, s.now), app, s.now))
            && t.store == if used then s.store
                          else Delete(Write(s.store, UsedKey(hash), Marker(s.now), rules.consumeTtl, s.now),
                                      GrantKey(hash))
  {
    hide Decide;
    var n := |s.consumers|;
    var s1 := Next(rules, s, Start(hash, app));
    assert Fetch(s1.store, hash, s1.now) == Fetch(s.store, hash, s.now);
    var s2 := Next(rules, s1, Advance(n));
    assert s2.consumers[n].stage == if s1.consumers[n].stage.Claimed? then Fetched(Fetch(s.store, hash, s.now))
                                    else s1.consumers[n].stage;
    var s3 := Next(rules, s2, Advance(n));
    assert s3.consumers[n].stage == if s1.consumers[n].stage.Claimed? then Cleared(Fetch(s.store, hash, s.now))
                                    else s1.consumers[n].stage;
  }
}
