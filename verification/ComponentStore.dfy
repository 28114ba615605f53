/** The component store a blocklet keeps in memory (blocklet/node-sdk config): one array, edited by
    the handlers of component events, that is to behave like a map from DID to component. */
module ComponentStore {

  import opened Common

  datatype Status = Running | Stopped | Other(code: int)

  datatype Field = Field(name: string)

  datatype Value = Value(json: string)

  datatype Component = Component(did: Did, status: Status, fields: map<Field, Value>)

  /** A component as an event carries it; the status it carries is never used. */
  datatype Item = Item(did: Did, fields: map<Field, Value>)

  type Store = seq<Component>

  datatype Event =
    | Installed(items: seq<Item>)
    | Updated(items: seq<Item>)
    | Started(dids: seq<Did>)
    | StoppedAll(dids: seq<Did>)
    | Removed(dids: seq<Did>)

  // ---------------------------------------------------------------- what the handlers do to the array

  /** The first component with this DID. */
  function Position(store: Store, did: Did): (i: nat)
    ensures i <= |store|
    ensures i < |store| ==> store[i].did == did
    ensures forall j :: 0 <= j < i ==> store[j].did != did
  {
    if store == [] || store[0].did == did then 0 else 1 + Position(store[1..], did)
  }

  function Find(store: Store, did: Did): Option<Component> {
    var i := Position(store, did);
    if i < |store| then Some(store[i]) else None
  }

  /** A component that is there is assigned the new fields and keeps its status. */
  function Assign(c: Component, item: Item): Component {
    c.(fields := c.fields + item.fields)
  }

  function New(item: Item): Component {
    Component(item.did, Stopped, item.fields)
  }

  function Put(store: Store, item: Item): Store {
    var i := Position(store, item.did);
    if i < |store| then store[i := Assign(store[i], item)] else store + [New(item)]
  }

  function PutAll(store: Store, items: seq<Item>): Store {
    if items == [] then store else Put(PutAll(store, items[..|items| - 1]), items[|items| - 1])
  }

  function SetStatus(store: Store, dids: seq<Did>, status: Status): Store {
    seq(|store|, i requires 0 <= i < |store| => if store[i].did in dids then store[i].(status := status) else store[i])
  }

  /** The removal handler keeps a component when some DID in the event is not its own. */
  predicate Kept(c: Component, dids: seq<Did>) {
    exists d :: d in dids && d != c.did
  }

  function RemoveAll(store: Store, dids: seq<Did>): Store {
    if store == [] then []
    else RemoveAll(store[..|store| - 1], dids) + if Kept(store[|store| - 1], dids) then [store[|store| - 1]] else []
  }

  function Handle(store: Store, e: Event): Store {
    match e
    case Installed(items) => PutAll(store, items)
    case Updated(items) => PutAll(store, items)
    case Started(dids) => SetStatus(store, dids, Running)
    case StoppedAll(dids) => SetStatus(store, dids, Stopped)
    case Removed(dids) => RemoveAll(store, dids)
  }

  function HandleAll(store: Store, events: seq<Event>): Store
    decreases |events|
  {
    if events == [] then store else HandleAll(Handle(store, events[0]), events[1..])
  }

  ghost predicate Unique(store: Store) {
    forall i, j :: 0 <= i < j < |store| ==> store[i].did != store[j].did
  }

  function Dids(store: Store): seq<Did> {
    seq(|store|, i requires 0 <= i < |store| => store[i].did)
  }

  // ---------------------------------------------------------------- what an event does to one component

  function PutOne(c: Option<Component>, items: seq<Item>, did: Did): Option<Component> {
    if items == [] then c
    else
      var before, last := PutOne(c, items[..|items| - 1], did), items[|items| - 1];
      if last.did != did then before
      else if before.None? then Some(New(last)) else Some(Assign(before.value, last))
  }

  /** The life of one component: an event changes it only when it names it. */
  function Step(c: Option<Component>, e: Event, did: Did): Option<Component> {
    match e
    case Installed(items) => PutOne(c, items, did)
    case Updated(items) => PutOne(c, items, did)
    case Started(dids) => if c.Some? && did in dids then Some(c.value.(status := Running)) else c
    case StoppedAll(dids) => if c.Some? && did in dids then Some(c.value.(status := Stopped)) else c
    case Removed(dids) => if did in dids then None else c
  }

  function Life(c: Option<Component>, events: seq<Event>, did: Did): Option<Component>
    decreases |events|
  {
    if events == [] then c else Life(Step(c, events[0], did), events[1..], did)
  }

  // ---------------------------------------------------------------- the array is a map

  lemma FindAt(store: Store, i: nat)
    requires Unique(store) && i < |store|
    ensures Position(store, store[i].did) == i && Find(store, store[i].did) == Some(store[i])
  {
    var j := Position(store, store[i].did);
    assert j <= i;
  }

  lemma FindIs(store: Store, did: Did, c: Option<Component>)
    requires Unique(store)
    requires c.Some? ==> c.value.did == did && c.value in store
    requires c.None? ==> forall i :: 0 <= i < |store| ==> store[i].did != did
    ensures Find(store, did) == c
  {
    if c.Some? {
      var i :| 0 <= i < |store| && store[i] == c.value;
      FindAt(store, i);
    }
  }

  lemma PutIsOne(store: Store, item: Item, did: Did)
    requires Unique(store)
    ensures Unique(Put(store, item))
    ensures Find(Put(store, item), did)
         == if item.did != did then Find(store, did)
            else if Find(store, did).None? then Some(New(item)) else Some(Assign(Find(store, did).value, item))
    ensures Dids(Put(store, item)) == if Find(store, item.did).Some? then Dids(store) else Dids(store) + [item.did]
  {
    var i := Position(store, item.did);
    var after := Put(store, item);
    var expected := if item.did != did then Find(store, did)
                    else if Find(store, did).None? then Some(New(item)) else Some(Assign(Find(store, did).value, item));
    if i < |store| {
      assert forall k :: 0 <= k < |store| ==> after[k].did == store[k].did;
      if item.did != did && Find(store, did).Some? { assert after[Position(store, did)] == expected.value; }
      if item.did == did { assert after[i] == expected.value; }
    } else {
      if item.did != did && Find(store, did).Some? { assert after[Position(store, did)] == expected.value; }
      if item.did == did { assert after[|store|] == expected.value; }
    }
    FindIs(after, did, expected);
  }

  lemma {:induction false} PutAllIsOne(store: Store, items: seq<Item>, did: Did)
    requires Unique(store)
    ensures Unique(PutAll(store, items)) && Find(PutAll(store, items), did) == PutOne(Find(store, did), items, did)
    ensures Dids(store) <= Dids(PutAll(store, items))
    decreases |items|
  {
    hide Unique, Find, Put, Dids;
    if items != [] {
      var n := |items| - 1;
      PutAllIsOne(store, items[..n], did);
      PutIsOne(PutAll(store, items[..n]), items[n], did);
    }
  }

  lemma SetStatusIsOne(store: Store, dids: seq<Did>, status: Status, did: Did)
    requires Unique(store)
    ensures Unique(SetStatus(store, dids, status)) && Dids(SetStatus(store, dids, status)) == Dids(store)
    ensures var c := Find(store, did);
            Find(SetStatus(store, dids, status), did)
            == if c.Some? && did in dids then Some(c.value.(status := status)) else c
  {
    var after := SetStatus(store, dids, status);
    var c := Find(store, did);
    if c.Some? { assert after[Position(store, did)].did == did; }
    FindIs(after, did, if c.Some? && did in dids then Some(c.value.(status := status)) else c);
  }

  lemma {:induction false} RemoveAllKeeps(store: Store, dids: seq<Did>)
    requires Unique(store)
    ensures Unique(RemoveAll(store, dids))
    ensures forall c :: c in RemoveAll(store, dids) <==> c in store && Kept(c, dids)
    decreases |store|
  {
    hide Kept;
    if store != [] {
      var n := |store| - 1;
      RemoveAllKeeps(store[..n], dids);
      assert store == store[..n] + [store[n]];
      assert forall c :: c in store[..n] ==> c.did != store[n].did;
    }
  }

  // ---------------------------------------------------------------- what removal removes

  /** The event names exactly one component. */
  ghost predicate NamesOne(dids: seq<Did>) {
    exists d :: Elements(dids) == {d}
  }

  /** Removal did what it says: gone is what was named, and nothing else. */
  ghost predicate RemovesExactly(store: Store, dids: seq<Did>) {
    forall c :: c in RemoveAll(store, dids) <==> c in store && c.did !in dids
  }

  /** Removal removes exactly the components named if and only if the event names one DID; or names
      several of which none is there; or names none and there is none. */
  lemma RemovalIsExactWhen(store: Store, dids: seq<Did>)
    requires Unique(store)
    ensures RemovesExactly(store, dids)
      <==> NamesOne(dids) || (dids != [] && forall c :: c in store ==> c.did !in dids) || (dids == [] && store == [])
  {
    RemoveAllKeeps(store, dids);
    if NamesOne(dids) {
      var d :| Elements(dids) == {d};
      assert forall e :: e in dids <==> e in Elements(dids);
      assert d in dids;
    } else if dids == [] {
      if store != [] { assert store[0] in store && !Kept(store[0], dids); }
    } else {
      NamesSeveral(store, dids);
    }
  }

  lemma NamesSeveral(store: Store, dids: seq<Did>)
    requires dids != [] && !NamesOne(dids)
    ensures forall c: Component :: Kept(c, dids)
  {
    forall c: Component
      ensures Kept(c, dids)
    {
      assert dids[0] in Elements(dids) && Elements(dids) != {c.did};
    }
  }

  lemma RemoveIsOne(store: Store, dids: seq<Did>, did: Did)
    requires Unique(store) && NamesOne(dids)
    ensures Unique(RemoveAll(store, dids))
    ensures Find(RemoveAll(store, dids), did) == if did in dids then None else Find(store, did)
  {
    RemovalIsExactWhen(store, dids);
    RemoveAllKeeps(store, dids);
    var after := RemoveAll(store, dids);
    var expected := if did in dids then None else Find(store, did);
    if expected.None? {
      forall i | 0 <= i < |after|
        ensures after[i].did != did
      {
        assert after[i] in after;
      }
    }
    FindIs(after, did, expected);
  }

  // ---------------------------------------------------------------- every run

  /** Every removal names one component. */
  ghost predicate SingleRemovals(events: seq<Event>) {
    forall i :: 0 <= i < |events| && events[i].Removed? ==> NamesOne(events[i].dids)
  }

  lemma HandleIsOne(store: Store, e: Event, did: Did)
    requires Unique(store) && (e.Removed? ==> NamesOne(e.dids))
    ensures Unique(Handle(store, e)) && Find(Handle(store, e), did) == Step(Find(store, did), e, did)
  {
    hide Unique, Find, PutAll, PutOne, SetStatus, RemoveAll, NamesOne;
    match e {
      case Installed(items) => PutAllIsOne(store, items, did);
      case Updated(items) => PutAllIsOne(store, items, did);
      case Started(dids) => SetStatusIsOne(store, dids, Running, did);
      case StoppedAll(dids) => SetStatusIsOne(store, dids, Stopped, did);
      case Removed(dids) => RemoveIsOne(store, dids, did);
    }
  }

  /** Over any run of installs, updates, starts, stops and removals of one component, DIDs stay
      unique, and what the store holds for a DID is that component's own life: it depends on the
      events that name it, and on nothing else. */
  lemma {:induction false} StoreIsAMap(store: Store, events: seq<Event>, did: Did)
    requires Unique(store) && SingleRemovals(events)
    ensures Unique(HandleAll(store, events))
    ensures Find(HandleAll(store, events), did) == Life(Find(store, did), events, did)
    decreases |events|
  {
    hide Unique, Find, Handle, Step;
    if events != [] {
      HandleIsOne(store, events[0], did);
      StoreIsAMap(Handle(store, events[0]), events[1..], did);
    }
  }

  predicate SetsStatus(e: Event, did: Did) {
    (e.Started? || e.StoppedAll?) && did in e.dids
  }

  /** As long as a component is not removed itself, its status is what the last start or stop that
      names it says; without one it is the status it had. */
  lemma {:induction false} StatusIsTheLastCommand(store: Store, events: seq<Event>, did: Did)
    requires Unique(store) && SingleRemovals(events) && Find(store, did).Some?
    requires forall i :: 0 <= i < |events| && events[i].Removed? ==> did !in events[i].dids
    ensures Find(HandleAll(store, events), did).Some?
    ensures Find(HandleAll(store, events), did).value.status == LastCommand(Find(store, did).value.status, events, did)
    decreases |events|
  {
    hide Unique, Find, Handle;
    if events != [] {
      HandleIsOne(store, events[0], did);
      if events[0].Installed? || events[0].Updated? { PutOneKeepsStatus(Find(store, did), events[0].items, did); }
      StatusIsTheLastCommand(Handle(store, events[0]), events[1..], did);
    }
  }

  function LastCommand(status: Status, events: seq<Event>, did: Did): Status
    decreases |events|
  {
    if events == [] then status
    else LastCommand(if !SetsStatus(events[0], did) then status else if events[0].Started? then Running else Stopped,
                     events[1..], did)
  }

  lemma {:induction false} PutOneKeepsStatus(c: Option<Component>, items: seq<Item>, did: Did)
    ensures c.Some? ==> PutOne(c, items, did).Some? && PutOne(c, items, did).value.status == c.value.status
    ensures c.None? && PutOne(c, items, did).Some? ==> PutOne(c, items, did).value.status == Stopped
    decreases |items|
  {
    if items != [] {
      PutOneKeepsStatus(c, items[..|items| - 1], did);
    }
  }

  /** An install or update leaves every other status alone, and what it adds begins stopped. */
  lemma NewOnesBeginStopped(store: Store, items: seq<Item>, did: Did)
    requires Unique(store)
    ensures var before, after := Find(store, did), Find(PutAll(store, items), did);
            && (before.Some? ==> after.Some? && after.value.status == before.value.status)
            && (before.None? ==> (after.Some? <==> exists item :: item in items && item.did == did))
            && (before.None? && after.Some? ==> after.value.status == Stopped)
  {
    PutAllIsOne(store, items, did);
    PutOneKeepsStatus(Find(store, did), items, did);
    PutOneAdds(Find(store, did), items, did);
  }

  lemma {:induction false} PutOneAdds(c: Option<Component>, items: seq<Item>, did: Did)
    ensures c.None? ==> (PutOne(c, items, did).Some? <==> exists item :: item in items && item.did == did)
    decreases |items|
  {
    if items != [] {
      var n := |items| - 1;
      PutOneAdds(c, items[..n], did);
      assert items == items[..n] + [items[n]];
    }
  }

  // ---------------------------------------------------------------- fields

  ghost predicate Carries(items: seq<Item>, k: nat, did: Did, f: Field) {
    k < |items| && items[k].did == did && f in items[k].fields
  }

  ghost predicate CarriesLast(items: seq<Item>, k: nat, did: Did, f: Field) {
    Carries(items, k, did, f) && forall j: nat :: j > k ==> !Carries(items, j, did, f)
  }

  function FieldOf(c: Option<Component>, f: Field): Option<Value> {
    if c.Some? && f in c.value.fields then Some(c.value.fields[f]) else None
  }

  /** The field has the value of the last item that carries it, and without one its old value. */
  ghost predicate LastSaid(items: seq<Item>, did: Did, f: Field, before: Option<Value>, after: Option<Value>) {
    && (forall k: nat :: CarriesLast(items, k, did, f) ==> after == Some(items[k].fields[f]))
    && ((forall k: nat :: !Carries(items, k, did, f)) ==> after == before)
  }

  lemma CarriesOneMore(items: seq<Item>, last: Item, did: Did, f: Field)
    ensures var all := items + [last];
            && (forall k: nat :: Carries(all, k, did, f)
                 <==> Carries(items, k, did, f) || (k == |items| && last.did == did && f in last.fields))
            && (last.did == did && f in last.fields ==> CarriesLast(all, |items|, did, f))
            && (!(last.did == did && f in last.fields) ==>
                  forall k: nat :: CarriesLast(all, k, did, f) <==> CarriesLast(items, k, did, f))
  {
    var all := items + [last];
    assert forall k: nat :: k < |items| ==> all[k] == items[k];
    assert all[|items|] == last;
  }

  lemma {:induction false} PutOneSays(c: Option<Component>, items: seq<Item>, did: Did, f: Field)
    ensures LastSaid(items, did, f, FieldOf(c, f), FieldOf(PutOne(c, items, did), f))
    decreases |items|
  {
    if items == [] {
      NothingSaid(did, f, FieldOf(c, f));
    } else {
      var n := |items| - 1;
      assert items == items[..n] + [items[n]];
      PutOneSays(c, items[..n], did, f);
      CarriesOneMore(items[..n], items[n], did, f);
      var before, after := PutOne(c, items[..n], did), PutOne(c, items, did);
      if items[n].did == did && f in items[n].fields {
        assert FieldOf(after, f) == Some(items[n].fields[f]);
        assert forall k: nat :: CarriesLast(items, k, did, f) ==> k == n;
        assert Carries(items, n, did, f);
      } else {
        assert FieldOf(after, f) == FieldOf(before, f);
        forall k: nat | CarriesLast(items, k, did, f)
          ensures FieldOf(after, f) == Some(items[k].fields[f])
        {
          assert CarriesLast(items[..n], k, did, f);
        }
      }
    }
  }

  /** After an install or update a component has each field as the last item that names it and
      carries the field says; a field that no such item carries is as it was, or missing as before. */
  lemma FieldsAreTheLastSaid(store: Store, items: seq<Item>, did: Did, f: Field)
    requires Unique(store)
    ensures LastSaid(items, did, f, FieldOf(Find(store, did), f), FieldOf(Find(PutAll(store, items), did), f))
  {
    hide Find, PutAll, LastSaid;
    PutAllIsOne(store, items, did);
    PutOneSays(Find(store, did), items, did, f);
  }

  function ItemsOf(e: Event): seq<Item> {
    if e.Installed? || e.Updated? then e.items else []
  }

  lemma {:induction false} LifeSays(c: Option<Component>, events: seq<Event>, did: Did, f: Field)
    requires forall i :: 0 <= i < |events| && events[i].Removed? ==> did !in events[i].dids
    ensures LastSaid(FlatMap(ItemsOf, events), did, f, FieldOf(c, f), FieldOf(Life(c, events, did), f))
    decreases |events|
  {
    hide LastSaid;
    if events == [] {
      NothingSaid(did, f, FieldOf(c, f));
    } else {
      var e := events[0];
      StepSays(c, e, did, f);
      LifeSays(Step(c, e, did), events[1..], did, f);
      SaidInTurn(ItemsOf(e), FlatMap(ItemsOf, events[1..]), did, f, FieldOf(c, f), FieldOf(Step(c, e, did), f),
                 FieldOf(Life(c, events, did), f));
      hide Step;
    }
  }

  lemma NothingSaid(did: Did, f: Field, value: Option<Value>)
    ensures LastSaid([], did, f, value, value)
  {
  }

  lemma StepSays(c: Option<Component>, e: Event, did: Did, f: Field)
    requires e.Removed? ==> did !in e.dids
    ensures LastSaid(ItemsOf(e), did, f, FieldOf(c, f), FieldOf(Step(c, e, did), f))
  {
    hide LastSaid;
    if e.Installed? || e.Updated? { PutOneSays(c, e.items, did, f); } else { NothingSaid(did, f, FieldOf(c, f)); }
  }

  lemma SaidInTurn(a: seq<Item>, b: seq<Item>, did: Did, f: Field,
                   first: Option<Value>, second: Option<Value>, third: Option<Value>)
    requires LastSaid(a, did, f, first, second) && LastSaid(b, did, f, second, third)
    ensures LastSaid(a + b, did, f, first, third)
  {
    forall k: nat | CarriesLast(a + b, k, did, f)
      ensures third == Some((a + b)[k].fields[f])
    {
      LastOfBoth(a, b, did, f, k);
    }
    if forall k: nat :: !Carries(a + b, k, did, f) { NoneOfBoth(a, b, did, f); }
  }

  lemma CarriesAcross(a: seq<Item>, b: seq<Item>, did: Did, f: Field, k: nat)
    ensures Carries(a + b, k, did, f) <==> if k < |a| then Carries(a, k, did, f) else Carries(b, k - |a|, did, f)
  {
  }

  lemma LastOfBoth(a: seq<Item>, b: seq<Item>, did: Did, f: Field, k: nat)
    requires CarriesLast(a + b, k, did, f)
    ensures k < |a + b| && f in (a + b)[k].fields
    ensures k < |a| ==> CarriesLast(a, k, did, f) && (a + b)[k] == a[k] && forall j: nat :: !Carries(b, j, did, f)
    ensures k >= |a| ==> CarriesLast(b, k - |a|, did, f) && (a + b)[k] == b[k - |a|]
  {
    assert Carries(a + b, k, did, f);
    CarriesAcross(a, b, did, f, k);
    forall j: nat | j > k && k < |a|
      ensures !Carries(a, j, did, f)
    {
      CarriesAcross(a, b, did, f, j);
    }
    forall j: nat | j + |a| > k
      ensures !Carries(b, j, did, f)
    {
      CarriesAcross(a, b, did, f, j + |a|);
      assert !Carries(a + b, j + |a|, did, f);
    }
  }

  lemma NoneOfBoth(a: seq<Item>, b: seq<Item>, did: Did, f: Field)
    requires forall k: nat :: !Carries(a + b, k, did, f)
    ensures forall k: nat :: !Carries(a, k, did, f) && !Carries(b, k, did, f)
  {
    hide Carries;
    forall k: nat
      ensures !Carries(b, k, did, f) && (k < |a| ==> !Carries(a, k, did, f))
    {
      CarriesAcross(a, b, did, f, k);
      CarriesAcross(a, b, did, f, k + |a|);
    }
    forall k: nat | k >= |a|
      ensures !Carries(a, k, did, f)
    {
      CarriesInside(a, did, f, k);
    }
  }

  lemma CarriesInside(items: seq<Item>, did: Did, f: Field, k: nat)
    ensures Carries(items, k, did, f) ==> k < |items|
  {
  }

  /** Over any run in which a component is not removed itself, each of its fields is what the last
      install or update that carries it says. */
  lemma FieldsAreTheLastUpdate(store: Store, events: seq<Event>, did: Did, f: Field)
    requires Unique(store) && SingleRemovals(events)
    requires forall i :: 0 <= i < |events| && events[i].Removed? ==> did !in events[i].dids
    ensures LastSaid(FlatMap(ItemsOf, events), did, f, FieldOf(Find(store, did), f),
                     FieldOf(Find(HandleAll(store, events), did), f))
  {
    hide LastSaid, Find;
    StoreIsAMap(store, events, did);
    LifeSays(Find(store, did), events, did, f);
  }

  // ---------------------------------------------------------------- the code

  /** The components named, as they are now. */
  function Named(store: Store, dids: seq<Did>): Store {
    if store == [] then []
    else
      var n := |store| - 1;
      Named(store[..n], dids) + if store[n].did in dids then [store[n]] else []
  }

  lemma NamedOneMore(store: Store, last: Component, dids: seq<Did>)
    ensures Named(store + [last], dids) == Named(store, dids) + if last.did in dids then [last] else []
  {
    assert (store + [last])[..|store|] == store;
  }

  /** What an install or update announces: each item with its component's status. */
  ghost predicate Announces(list: Store, items: seq<Item>, store: Store) {
    && |list| == |items|
    && forall i :: 0 <= i < |items| ==>
         && Find(store, items[i].did).Some?
         && list[i] == Component(items[i].did, Find(store, items[i].did).value.status, items[i].fields)
  }

  lemma PutAnnounces(list: Store, items: seq<Item>, store: Store, item: Item)
    requires Unique(store) && Announces(list, items, store)
    ensures var after := Put(store, item);
            && Find(after, item.did).Some?
            && Announces(list + [Component(item.did, Find(after, item.did).value.status, item.fields)],
                         items + [item], after)
  {
    hide Find, Put, Unique;
    PutIsOne(store, item, item.did);
    forall i | 0 <= i < |items|
      ensures Find(Put(store, item), items[i].did).Some?
      ensures list[i].status == Find(Put(store, item), items[i].did).value.status
    {
      PutIsOne(store, item, items[i].did);
    }
  }

  lemma NothingAnnounced(store: Store)
    ensures Announces([], [], store)
  {
  }

  /** The array when the first i components have been dealt with. */
  ghost function Half(store: Store, dids: seq<Did>, status: Status, i: nat): Store
    requires i <= |store|
  {
    SetStatus(store[..i], dids, status) + store[i..]
  }

  lemma HalfStep(store: Store, dids: seq<Did>, status: Status, i: nat)
    requires i < |store|
    ensures var half := Half(store, dids, status, i);
            && |half| == |store| && half[i] == store[i]
            && Half(store, dids, status, i + 1)
               == half[i := if store[i].did in dids then store[i].(status := status) else store[i]]
  {
  }

  lemma HalfEnds(store: Store, dids: seq<Did>, status: Status)
    ensures Half(store, dids, status, 0) == store
    ensures Half(store, dids, status, |store|) == SetStatus(store, dids, status)
  {
    assert store[..|store|] == store && store[..0] == [];
  }

  class Holder {
    var components: Store

    constructor ()
      ensures components == []
    {
      components := [];
    }

    /** Sets the status of the components named, and says which they are. */
    method SetComponentStatus(dids: seq<Did>, status: Status) returns (list: Store)
      modifies this
      ensures components == SetStatus(old(components), dids, status)
      ensures list == Named(components, dids)
    {
      HalfEnds(components, dids, status);
      var i := 0;
      list := [];
      while i < |components|
        invariant 0 <= i <= |components| == |old(components)|
        invariant components == Half(old(components), dids, status, i)
        invariant list == Named(components[..i], dids)
      {
        HalfStep(old(components), dids, status, i);
        hide Half, SetStatus, Named;
        ghost var before := components;
        if components[i].did in dids {
          components := components[i := components[i].(status := status)];
          list := list + [components[i]];
        }
        assert components[..i + 1] == before[..i] + [components[i]];
        NamedOneMore(before[..i], components[i], dids);
        i := i + 1;
      }
      assert components[..i] == components;
    }

    /** One item of an install or update; its announcement carries the component's status. */
    method PutComponent(item: Item) returns (announced: Component)
      requires Unique(components)
      modifies this
      ensures Unique(components) && components == Put(old(components), item)
      ensures Find(components, item.did).Some?
      ensures announced == Component(item.did, Find(components, item.did).value.status, item.fields)
    {
      PutIsOne(components, item, item.did);
      var at := Position(components, item.did);
      var status := if at < |components| then components[at].status else Stopped;
      if at < |components| {
        components := components[at := Assign(components[at], item)];
      } else {
        components := components + [New(item)];
      }
      announced := Component(item.did, status, item.fields);
    }

    method SetUpdatedComponents(items: seq<Item>) returns (list: Store)
      requires Unique(components)
      modifies this
      ensures Unique(components) && components == PutAll(old(components), items)
      ensures Announces(list, items, components)
    {
      hide Unique, Announces, Put, Find;
      list := [];
      NothingAnnounced(components);
      assert items[..0] == [];
      var i := 0;
      while i < |items|
        invariant 0 <= i <= |items|
        invariant Unique(components) && components == PutAll(old(components), items[..i])
        invariant Announces(list, items[..i], components)
      {
        PutAnnounces(list, items[..i], components, items[i]);
        assert items[..i + 1] == items[..i] + [items[i]] && items[..i + 1][..i] == items[..i];
        var announced := PutComponent(items[i]);
        list := list + [announced];
        i := i + 1;
      }
      assert items[..i] == items;
    }

    method HandleRemoved(dids: seq<Did>)
      modifies this
      ensures components == RemoveAll(old(components), dids)
    {
      var list: Store := [];
      var i := 0;
      while i < |components|
        invariant 0 <= i <= |components| && components == old(components)
        invariant list == RemoveAll(components[..i], dids)
      {
        assert components[..i + 1][..i] == components[..i];
        if exists d :: d in dids && d != components[i].did {
          list := list + [components[i]];
        }
        i := i + 1;
      }
      assert components[..i] == components;
      components := list;
    }

    /** Any event, handled as `Handle` says. */
    method HandleEvent(e: Event)
      requires Unique(components)
      modifies this
      ensures components == Handle(old(components), e)
    {
      match e {
        case Installed(items) => var added := SetUpdatedComponents(items);
        case Updated(items) => var updated := SetUpdatedComponents(items);
        case Started(dids) => var started := SetComponentStatus(dids, Running);
        case StoppedAll(dids) => var stopped := SetComponentStatus(dids, Stopped);
        case Removed(dids) => HandleRemoved(dids);
      }
    }
  }
}
