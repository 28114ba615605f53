/** Vault chains (blocklet/meta security): each vault is approved by the one before it, the first by
    an outside approver, and commits to its own approval. Keys and signatures are left abstract. */
module Vault {

  import opened Common
  import opened Text

  /** An empty key, DID or signature counts as missing. */
  datatype Record = Record(pk: string, did: string, at: int, sig: string,
                           approverSig: string, approverDid: string, approverPk: string)

  /** What checking a signature gives; making the key's wallet may throw as well. */
  datatype Check = Accepted | Refused | Threw

  datatype Crypto = Crypto(
    isFromPublicKey: (string, string) -> bool,
    verify: (string, string, string, string) -> Check)  // public key, DID, data, signature

  datatype Reason =
    | Empty | NotAscending | Duplicate
    | KeyMismatch(at: nat) | ApprovalMissing(at: nat) | ApprovalFailed(at: nat)
    | CommitMissing(at: nat) | CommitFailed(at: nat)

  datatype Result = Valid(did: string) | Invalid(reason: Reason)

  /** What a caller sees: the last DID, the empty text, or an exception. */
  datatype Outcome = Returned(text: string) | Thrown(reason: Reason)

  // ---------------------------------------------------------------- the chain

  function DidsOf(vaults: seq<Record>): seq<string> {
    seq(|vaults|, i requires 0 <= i < |vaults| => vaults[i].did)
  }

  /** The DIDs, each after a colon. */
  function Tail(dids: seq<string>): string {
    if dids == [] then "" else Tail(dids[..|dids| - 1]) + ":" + dids[|dids| - 1]
  }

  /** What the approver of the last of these vaults signs. */
  function ApprovalData(appPid: string, dids: seq<string>): string {
    "vault:" + appPid + Tail(dids)
  }

  /** What the last of these vaults signs itself. */
  function CommitData(appPid: string, dids: seq<string>, approverSig: string): string {
    ApprovalData(appPid, dids) + ":" + approverSig
  }

  predicate ApprovedBy(c: Crypto, pk: string, did: string, data: string, sig: string) {
    sig != "" && c.verify(pk, did, data, sig).Accepted?
  }

  /** The vault at i is approved by its predecessor's key, the first by the given approver's. */
  predicate Approved(c: Crypto, vaults: seq<Record>, appPid: string, i: nat)
    requires i < |vaults|
  {
    var data := ApprovalData(appPid, DidsOf(vaults[..i + 1]));
    if i > 0 then ApprovedBy(c, vaults[i - 1].pk, vaults[i - 1].did, data, vaults[i].approverSig)
    else
      && vaults[0].approverPk != "" && vaults[0].approverDid != ""
      && c.isFromPublicKey(vaults[0].approverDid, vaults[0].approverPk)
      && ApprovedBy(c, vaults[0].approverPk, vaults[0].approverDid, data, vaults[0].approverSig)
  }

  predicate Committed(c: Crypto, vaults: seq<Record>, appPid: string, i: nat)
    requires i < |vaults|
  {
    ApprovedBy(c, vaults[i].pk, vaults[i].did,
               CommitData(appPid, DidsOf(vaults[..i + 1]), vaults[i].approverSig), vaults[i].sig)
  }

  predicate LinkHolds(c: Crypto, vaults: seq<Record>, appPid: string, i: nat)
    requires i < |vaults|
  {
    c.isFromPublicKey(vaults[i].did, vaults[i].pk) && Approved(c, vaults, appPid, i) && Committed(c, vaults, appPid, i)
  }

  ghost predicate Ascending(vaults: seq<Record>) {
    forall i :: 0 < i < |vaults| ==> vaults[i - 1].at < vaults[i].at
  }

  ghost predicate Chain(c: Crypto, vaults: seq<Record>, appPid: string) {
    && vaults != [] && Ascending(vaults) && Distinct(DidsOf(vaults))
    && forall i :: 0 <= i < |vaults| ==> LinkHolds(c, vaults, appPid, i)
  }

  // ---------------------------------------------------------------- the code

  /** The number of different DIDs is the number of vaults exactly when none occurs twice. */
  lemma {:induction false} SetSize<T>(s: seq<T>)
    ensures |Elements(s)| <= |s|
    ensures |Elements(s)| == |s| <==> Distinct(s)
  {
    if s != [] {
      var n := |s| - 1;
      SetSize(s[..n]);
      assert s == s[..n] + [s[n]];
      assert Elements(s) == Elements(s[..n]) + {s[n]};
      if s[n] in s[..n] {
        var i :| 0 <= i < n && s[..n][i] == s[n];
        assert s[i] == s[n];
        assert Elements(s) == Elements(s[..n]);
      } else {
        assert forall i :: 0 <= i < n ==> s[..n][i] == s[i];
      }
    }
  }

  method FirstChecks(vaults: seq<Record>) returns (reason: Option<Reason>)
    ensures reason.None? <==> vaults != [] && Ascending(vaults) && Distinct(DidsOf(vaults))
    ensures reason == Some(Empty) <==> vaults == []
    ensures reason == Some(NotAscending) <==> !Ascending(vaults)
    ensures reason.Some? ==> reason.value in {Empty, NotAscending, Duplicate}
  {
    if vaults == [] {
      return Some(Empty);
    }
    var i := 1;
    while i < |vaults|
      invariant 1 <= i <= |vaults|
      invariant forall j :: 0 < j < i ==> vaults[j - 1].at < vaults[j].at
    {
      if vaults[i].at <= vaults[i - 1].at {
        return Some(NotAscending);
      }
      i := i + 1;
    }
    SetSize(DidsOf(vaults));
    reason := if |Elements(DidsOf(vaults))| != |vaults| then Some(Duplicate) else None;
  }

  lemma TailSnoc(vaults: seq<Record>, j: nat)
    requires j < |vaults|
    ensures Tail(DidsOf(vaults[..j + 1])) == Tail(DidsOf(vaults[..j])) + ":" + vaults[j].did
  {
    assert DidsOf(vaults[..j + 1])[..j] == DidsOf(vaults[..j]);
  }

  /** The data is put together one DID after the other. */
  method DataUpTo(vaults: seq<Record>, appPid: string, i: nat) returns (data: string)
    requires i < |vaults|
    ensures data == ApprovalData(appPid, DidsOf(vaults[..i + 1]))
  {
    data := "vault:" + appPid;
    var j := 0;
    assert DidsOf(vaults[..0]) == [];
    while j <= i
      invariant 0 <= j <= i + 1
      invariant data == "vault:" + appPid + Tail(DidsOf(vaults[..j]))
    {
      TailSnoc(vaults, j);
      data := data + ":" + vaults[j].did;
      j := j + 1;
    }
  }

  method CheckVault(c: Crypto, vaults: seq<Record>, appPid: string, i: nat) returns (reason: Option<Reason>)
    requires i < |vaults|
    ensures reason.None? <==> LinkHolds(c, vaults, appPid, i)
    ensures reason == Some(KeyMismatch(i)) <==> !c.isFromPublicKey(vaults[i].did, vaults[i].pk)
    ensures reason in {Some(ApprovalMissing(i)), Some(ApprovalFailed(i))} ==> !Approved(c, vaults, appPid, i)
    ensures reason in {Some(CommitMissing(i)), Some(CommitFailed(i))}
      ==> Approved(c, vaults, appPid, i) && !Committed(c, vaults, appPid, i)
    ensures reason.Some? ==>
      reason.value in {KeyMismatch(i), ApprovalMissing(i), ApprovalFailed(i), CommitMissing(i), CommitFailed(i)}
  {
    var vault := vaults[i];
    if !c.isFromPublicKey(vault.did, vault.pk) {
      return Some(KeyMismatch(i));
    }
    var data := DataUpTo(vaults, appPid, i);
    if vault.approverSig == "" {
      return Some(ApprovalMissing(i));
    }
    var pk, did := vault.approverPk, vault.approverDid;
    if i > 0 {
      pk, did := vaults[i - 1].pk, vaults[i - 1].did;
    } else if pk == "" || did == "" || !c.isFromPublicKey(did, pk) {
      return Some(ApprovalFailed(i));
    }
    if !c.verify(pk, did, data, vault.approverSig).Accepted? {
      return Some(ApprovalFailed(i));
    }
    if vault.sig == "" {
      return Some(CommitMissing(i));
    }
    data := data + ":" + vault.approverSig;
    if !c.verify(vault.pk, vault.did, data, vault.sig).Accepted? {
      return Some(CommitFailed(i));
    }
    reason := None;
  }

  /** Accepts exactly the chains; a fault found in a vault means that all before it hold. */
  method Verify(c: Crypto, vaults: seq<Record>, appPid: string) returns (result: Result)
    ensures result.Valid? <==> Chain(c, vaults, appPid)
    ensures result.Valid? ==> result.did == vaults[|vaults| - 1].did
    ensures result.Invalid? && !(result.reason in {Empty, NotAscending, Duplicate}) ==>
      && result.reason.at < |vaults|
      && !LinkHolds(c, vaults, appPid, result.reason.at)
      && forall j :: 0 <= j < result.reason.at ==> LinkHolds(c, vaults, appPid, j)
  {
    var first := FirstChecks(vaults);
    if first.Some? {
      return Invalid(first.value);
    }
    var i := 0;
    while i < |vaults|
      invariant 0 <= i <= |vaults|
      invariant forall j :: 0 <= j < i ==> LinkHolds(c, vaults, appPid, j)
    {
      hide LinkHolds;
      var reason := CheckVault(c, vaults, appPid, i);
      if reason.Some? {
        return Invalid(reason.value);
      }
      i := i + 1;
    }
    result := Valid(vaults[|vaults| - 1].did);
  }

  method VerifyVault(c: Crypto, vaults: seq<Record>, appPid: string, throwOnError: bool) returns (outcome: Outcome)
    ensures Chain(c, vaults, appPid) ==> outcome == Returned(vaults[|vaults| - 1].did)
    ensures !Chain(c, vaults, appPid) ==> if throwOnError then outcome.Thrown? else outcome == Returned("")
  {
    var result := Verify(c, vaults, appPid);
    match result {
      case Valid(did) => outcome := Returned(did);
      case Invalid(reason) => outcome := if throwOnError then Thrown(reason) else Returned("");
    }
  }

  // ---------------------------------------------------------------- chains grow one vault at a time

  lemma LinkOfPrefix(c: Crypto, vaults: seq<Record>, appPid: string, n: nat, i: nat)
    requires i < n <= |vaults|
    ensures LinkHolds(c, vaults[..n], appPid, i) <==> LinkHolds(c, vaults, appPid, i)
  {
    assert vaults[..n][..i + 1] == vaults[..i + 1];
  }

  /** A vault extends a chain exactly when it is later, new, approved by the last vault and
      committed; whether the vaults before it form a chain does not depend on it. */
  lemma ChainGrows(c: Crypto, vaults: seq<Record>, last: Record, appPid: string)
    requires vaults != []
    ensures Chain(c, vaults + [last], appPid) <==>
      && Chain(c, vaults, appPid)
      && vaults[|vaults| - 1].at < last.at
      && last.did !in DidsOf(vaults)
      && LinkHolds(c, vaults + [last], appPid, |vaults|)
  {
    hide LinkHolds;
    var n := |vaults|;
    var longer := vaults + [last];
    assert longer[..n] == vaults;
    assert DidsOf(longer) == DidsOf(vaults) + [last.did];
    DistinctSnoc(DidsOf(vaults), last.did);
    AscendingSnoc(vaults, last);
    forall i | 0 <= i < n
      ensures LinkHolds(c, vaults, appPid, i) <==> LinkHolds(c, longer, appPid, i)
    {
      LinkOfPrefix(c, longer, appPid, n, i);
    }
  }

  lemma AscendingSnoc(vaults: seq<Record>, last: Record)
    requires vaults != []
    ensures Ascending(vaults + [last]) <==> Ascending(vaults) && vaults[|vaults| - 1].at < last.at
  {
    var n, longer := |vaults|, vaults + [last];
    assert forall i :: 0 <= i < n ==> longer[i] == vaults[i];
    assert Ascending(longer) ==> longer[n - 1].at < longer[n].at;
  }

  lemma DistinctSnoc<T>(s: seq<T>, x: T)
    ensures Distinct(s + [x]) <==> Distinct(s) && x !in s
  {
    var longer := s + [x];
    assert forall i :: 0 <= i < |s| ==> longer[i] == s[i];
    if x in s {
      var i :| 0 <= i < |s| && s[i] == x;
      assert longer[i] == longer[|s|];
    }
  }

  /** Every beginning of a chain is a chain. */
  lemma {:induction false} ChainIsPrefixClosed(c: Crypto, vaults: seq<Record>, appPid: string, n: nat)
    requires Chain(c, vaults, appPid) && 0 < n <= |vaults|
    ensures Chain(c, vaults[..n], appPid)
    decreases |vaults|
  {
    if n < |vaults| {
      var m := |vaults| - 1;
      assert vaults == vaults[..m] + [vaults[m]];
      ChainGrows(c, vaults[..m], vaults[m], appPid);
      ChainIsPrefixClosed(c, vaults[..m], appPid, n);
      assert vaults[..m][..n] == vaults[..n];
    } else {
      assert vaults[..n] == vaults;
    }
  }

  // ---------------------------------------------------------------- what a signature is about

  /** The data is the parts, joined with colons. */
  lemma {:induction false} DataIsJoined(appPid: string, dids: seq<string>)
    ensures ApprovalData(appPid, dids) == Join(["vault", appPid] + dids, ":")
    decreases |dids|
  {
    var parts := ["vault", appPid];
    if dids == [] {
      assert parts + dids == parts && parts[1..] == [appPid];
      assert "vault:" == "vault" + ":";
      assert Join(parts, ":") == "vault" + ":" + Join([appPid], ":");
    } else {
      var n := |dids| - 1;
      DataIsJoined(appPid, dids[..n]);
      JoinConcat(parts + dids[..n], [dids[n]], ":");
      assert parts + dids[..n] + [dids[n]] == parts + dids;
      DataSnoc(appPid, dids);
    }
  }

  lemma DataSnoc(appPid: string, dids: seq<string>)
    requires dids != []
    ensures ApprovalData(appPid, dids) == ApprovalData(appPid, dids[..|dids| - 1]) + ":" + dids[|dids| - 1]
  {
    var n := |dids| - 1;
    assert "vault:" + appPid + (Tail(dids[..n]) + ":" + dids[n]) == "vault:" + appPid + Tail(dids[..n]) + ":" + dids[n];
  }

  predicate NoColon(parts: seq<string>) {
    forall i :: 0 <= i < |parts| ==> ':' !in parts[i]
  }

  /** What is signed determines the application and all vaults up to that point, provided none of
      their names contains a colon. */
  lemma SignedDataDetermines(appPid: string, dids: seq<string>, otherPid: string, otherDids: seq<string>)
    requires ':' !in appPid && ':' !in otherPid && NoColon(dids) && NoColon(otherDids)
    requires ApprovalData(appPid, dids) == ApprovalData(otherPid, otherDids)
    ensures appPid == otherPid && dids == otherDids
  {
    var parts, others := ["vault", appPid] + dids, ["vault", otherPid] + otherDids;
    DataIsJoined(appPid, dids);
    DataIsJoined(otherPid, otherDids);
    SplitJoin(parts, ':');
    SplitJoin(others, ':');
    assert parts == others;
    assert parts[1] == others[1] && parts[2..] == dids && others[2..] == otherDids;
  }

  // ---------------------------------------------------------------- colons in the names

  /** The application and the DIDs in one list: what the data joins after its first word. */
  function Names(appPid: string, dids: seq<string>): seq<string> {
    [appPid] + dids
  }

  /** Two steps, of chains of the same length, that sign the same data. */
  predicate SignTheSame(appPid: string, dids: seq<string>, otherPid: string, otherDids: seq<string>) {
    |otherDids| == |dids| && ApprovalData(otherPid, otherDids) == ApprovalData(appPid, dids)
  }

  lemma SignTheSameNames(appPid: string, dids: seq<string>, otherPid: string, otherDids: seq<string>)
    ensures ApprovalData(appPid, dids) == ApprovalData(otherPid, otherDids)
       <==> Join(Names(appPid, dids), ":") == Join(Names(otherPid, otherDids), ":")
  {
    DataJoinsNames(appPid, dids);
    DataJoinsNames(otherPid, otherDids);
    var mine, theirs := Join(Names(appPid, dids), ":"), Join(Names(otherPid, otherDids), ":");
    assert ("vault:" + mine)[6..] == mine && ("vault:" + theirs)[6..] == theirs;
  }

  lemma DataJoinsNames(appPid: string, dids: seq<string>)
    ensures ApprovalData(appPid, dids) == "vault:" + Join(Names(appPid, dids), ":")
  {
    var parts := ["vault", appPid] + dids;
    DataIsJoined(appPid, dids);
    assert parts[1..] == Names(appPid, dids);
    assert "vault" + ":" == "vault:";
  }

  /** How many colons there are in the names. */
  function Colons(names: seq<string>): nat {
    if names == [] then 0 else multiset(names[0])[':'] + Colons(names[1..])
  }

  lemma {:induction false} NoColonsWithout(names: seq<string>)
    ensures Colons(names) == 0 <==> NoColon(names)
  {
    if names != [] {
      NoColonsWithout(names[1..]);
      assert ':' in multiset(names[0]) <==> ':' in names[0];
      HeadTail(names, []);
      assert NoColon(names) <==> ':' !in names[0] && NoColon(names[1..]);
    }
  }

  lemma {:induction false} JoinCountsColons(names: seq<string>)
    requires names != []
    ensures multiset(Join(names, ":"))[':'] == Colons(names) + |names| - 1
  {
    if |names| > 1 {
      JoinCountsColons(names[1..]);
      assert multiset(":")[':'] == 1;
    }
  }

  /** Names without a colon are the only ones of their number with their join. */
  lemma JoinDetermines(names: seq<string>, others: seq<string>)
    requires names != [] && |others| == |names| && NoColon(names)
    requires Join(others, ":") == Join(names, ":")
    ensures others == names
  {
    JoinCountsColons(names);
    JoinCountsColons(others);
    NoColonsWithout(names);
    NoColonsWithout(others);
    SplitJoin(names, ':');
    SplitJoin(others, ':');
  }

  /** A colon and what is on one side of it can be moved into the neighbouring name. */
  lemma {:induction false} ColonMoves(names: seq<string>) returns (others: seq<string>)
    requires |names| >= 2 && !NoColon(names)
    ensures |others| == |names| && others != names && Join(others, ":") == Join(names, ":")
  {
    var rest := names[1..];
    if ':' in names[0] {
      var i :| 0 <= i < |names[0]| && names[0][i] == ':';
      var before, after := names[0][..i], names[0][i + 1..];
      others := [before, after + ":" + rest[0]] + rest[1..];
      JoinLonger(after + ":", rest);
      assert others[1..] == [after + ":" + rest[0]] + rest[1..];
      assert names[0] == before + ":" + after;
      assert |others[0]| < |names[0]|;
      assert before + ":" + (after + ":" + Join(rest, ":")) == names[0] + ":" + Join(rest, ":");
    } else if ':' in rest[0] {
      var i :| 0 <= i < |rest[0]| && rest[0][i] == ':';
      var before, after := rest[0][..i], rest[0][i + 1..];
      others := [names[0] + ":" + before] + ([after] + rest[1..]);
      JoinLonger(before + ":", [after] + rest[1..]);
      assert rest[0] == before + ":" + after;
      assert [before + ":" + after] + rest[1..] == rest;
      assert others[1..] == [after] + rest[1..];
      assert |others[0]| > |names[0]|;
      var tail := Join([after] + rest[1..], ":");
      assert names[0] + ":" + before + ":" + tail == names[0] + ":" + (before + ":" + tail);
    } else {
      assert !NoColon(rest) by {
        var k :| 0 <= k < |names| && ':' in names[k];
        assert rest[k - 1] == names[k];
      }
      assert |rest| >= 2;
      var moved := ColonMoves(rest);
      others := [names[0]] + moved;
      assert others[1..] == moved;
    }
  }

  lemma JoinLonger(prefix: string, names: seq<string>)
    requires names != []
    ensures Join([prefix + names[0]] + names[1..], ":") == prefix + Join(names, ":")
  {
    var longer := [prefix + names[0]] + names[1..];
    assert longer[1..] == names[1..];
    if |names| > 1 {
      var rest := Join(names[1..], ":");
      assert prefix + names[0] + ":" + rest == prefix + (names[0] + ":" + rest);
    }
  }

  /** With a colon in some name, another application or other DIDs sign the same data at the same
      step. */
  lemma ColonsConfuse(appPid: string, dids: seq<string>) returns (otherPid: string, otherDids: seq<string>)
    requires dids != [] && !(':' !in appPid && NoColon(dids))
    ensures SignTheSame(appPid, dids, otherPid, otherDids) && !(otherPid == appPid && otherDids == dids)
  {
    var names := Names(appPid, dids);
    assert names[0] == appPid && names[1..] == dids;
    NoColonOfNames(appPid, dids);
    var others := ColonMoves(names);
    otherPid, otherDids := others[0], others[1..];
    assert Names(otherPid, otherDids) == others;
    SignTheSameNames(appPid, dids, otherPid, otherDids);
  }

  lemma NoColonOfNames(appPid: string, dids: seq<string>)
    ensures NoColon(Names(appPid, dids)) <==> ':' !in appPid && NoColon(dids)
  {
    var names := Names(appPid, dids);
    assert names[0] == appPid && forall i :: 0 <= i < |dids| ==> names[i + 1] == dids[i];
  }

  /** Among the chains of one length, the data signed determines the application and the DIDs exactly
      when none of these names contains a colon, or there is only the application. */
  lemma SignedDataDeterminesExactlyWhen(appPid: string, dids: seq<string>)
    ensures dids == [] || (':' !in appPid && NoColon(dids))
       <==> forall otherPid, otherDids :: SignTheSame(appPid, dids, otherPid, otherDids)
                                      ==> otherPid == appPid && otherDids == dids
  {
    if dids == [] || (':' !in appPid && NoColon(dids)) {
      forall otherPid, otherDids | SignTheSame(appPid, dids, otherPid, otherDids)
        ensures otherPid == appPid && otherDids == dids
      {
        SignTheSameNames(appPid, dids, otherPid, otherDids);
        var names, others := Names(appPid, dids), Names(otherPid, otherDids);
        if dids != [] {
          NoColonOfNames(appPid, dids);
          JoinDetermines(names, others);
        }
        assert names[0] == others[0] && names[1..] == dids && others[1..] == otherDids;
      }
    } else {
      var otherPid, otherDids := ColonsConfuse(appPid, dids);
    }
  }

  /** What a vault commits to takes its approver's signature in as one more name. */
  lemma CommitJoinsSignature(appPid: string, dids: seq<string>, approverSig: string)
    ensures CommitData(appPid, dids, approverSig) == ApprovalData(appPid, dids + [approverSig])
  {
    DataSnoc(appPid, dids + [approverSig]);
    assert (dids + [approverSig])[..|dids|] == dids;
  }

  ghost predicate CommitTheSame(appPid: string, dids: seq<string>, approverSig: string,
                                otherPid: string, otherDids: seq<string>, otherSig: string)
  {
    |otherDids| == |dids| && CommitData(otherPid, otherDids, otherSig) == CommitData(appPid, dids, approverSig)
  }

  /** Among the chains of one length, the data a vault commits to determines the application, the DIDs
      and its approver's signature exactly when there is no colon in any of them. */
  lemma CommittedDataDeterminesExactlyWhen(appPid: string, dids: seq<string>, approverSig: string)
    ensures ':' !in appPid && NoColon(dids) && ':' !in approverSig
       <==> forall otherPid, otherDids, otherSig ::
              CommitTheSame(appPid, dids, approverSig, otherPid, otherDids, otherSig)
              ==> otherPid == appPid && otherDids == dids && otherSig == approverSig
  {
    var names, n := dids + [approverSig], |dids|;
    NoColonSnoc(dids, approverSig);
    CommitJoinsSignature(appPid, dids, approverSig);
    if ':' !in appPid && NoColon(names) {
      forall otherPid, otherDids, otherSig | CommitTheSame(appPid, dids, approverSig, otherPid, otherDids, otherSig)
        ensures otherPid == appPid && otherDids == dids && otherSig == approverSig
      {
        CommitJoinsSignature(otherPid, otherDids, otherSig);
        SignedDataDeterminesExactlyWhen(appPid, names);
        assert SignTheSame(appPid, names, otherPid, otherDids + [otherSig]);
        assert (otherDids + [otherSig])[n] == otherSig && (otherDids + [otherSig])[..n] == otherDids;
        assert names[..n] == dids;
      }
    } else {
      var otherPid, others := ColonsConfuse(appPid, names);
      assert others == others[..n] + [others[n]];
      CommitJoinsSignature(otherPid, others[..n], others[n]);
      assert CommitTheSame(appPid, dids, approverSig, otherPid, others[..n], others[n]);
    }
  }

  lemma NoColonSnoc(dids: seq<string>, last: string)
    ensures NoColon(dids + [last]) <==> NoColon(dids) && ':' !in last
  {
    var all := dids + [last];
    assert all[|dids|] == last && forall i :: 0 <= i < |dids| ==> all[i] == dids[i];
  }

  /** The same data is also signed at a step one vault earlier, so the length of the chain is part of
      what a check must know; without it only a lone application without a colon is determined. */
  lemma LengthMatters(appPid: string, dids: seq<string>)
    ensures dids == [] && ':' !in appPid
       <==> forall otherPid, otherDids :: ApprovalData(otherPid, otherDids) == ApprovalData(appPid, dids)
                                      ==> otherPid == appPid && otherDids == dids
  {
    if dids != [] {
      var otherPid, otherDids := appPid + ":" + dids[0], dids[1..];
      assert Names(appPid, dids)[1..] == dids && Names(otherPid, otherDids)[1..] == dids[1..];
      JoinLonger(appPid + ":", dids);
      assert [appPid + ":" + dids[0]] + dids[1..] == Names(otherPid, otherDids);
      SignTheSameNames(appPid, dids, otherPid, otherDids);
      assert |otherPid| > |appPid|;
    } else if ':' in appPid {
      var i :| 0 <= i < |appPid| && appPid[i] == ':';
      var otherPid, otherDids := appPid[..i], [appPid[i + 1..]];
      assert appPid == otherPid + ":" + otherDids[0];
      assert Names(otherPid, otherDids)[1..] == otherDids;
      SignTheSameNames(appPid, dids, otherPid, otherDids);
    } else {
      forall otherPid, otherDids | ApprovalData(otherPid, otherDids) == ApprovalData(appPid, dids)
        ensures otherPid == appPid && otherDids == dids
      {
        SignTheSameNames(appPid, dids, otherPid, otherDids);
        LoneNameDetermines(appPid, Names(otherPid, otherDids));
        assert Names(otherPid, otherDids) == [otherPid] + otherDids;
      }
    }
  }

  lemma LoneNameDetermines(name: string, others: seq<string>)
    requires ':' !in name && others != [] && Join(others, ":") == name
    ensures others == [name]
  {
    JoinCountsColons(others);
    assert ':' !in multiset(name);
  }
}
