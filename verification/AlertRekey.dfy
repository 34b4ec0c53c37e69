/** Re-keying the alerts of merged funding cases (src/db.rs). */
module AlertRekey {
  import opened Util

  // ----- Segments of a dedup key -----

  function ColonAt(s: string): (n: nat)
    ensures n <= |s| && ':' !in s[..n] && (n < |s| ==> s[n] == ':')
  {
    if s == [] || s[0] == ':' then 0
    else
      assert s[..1 + ColonAt(s[1..])] == [s[0]] + s[1..][..ColonAt(s[1..])];
      1 + ColonAt(s[1..])
  }

  /** The n-th segment between colons, from zero; empty when there are fewer. */
  function Part(s: string, n: nat): string
    decreases n
  {
    var c := ColonAt(s);
    if n == 0 then s[..c] else if c == |s| then "" else Part(s[c + 1..], n - 1)
  }

  /** Everything from position `n` on; empty beyond the end. */
  function From(s: string, n: nat): string {
    if n <= |s| then s[n..] else ""
  }

  function Digit(d: nat): char
    requires d < 10
  {
    ('0' as int + d) as char
  }

  /** An id as PostgreSQL prints it. */
  function Decimal(n: nat): string {
    if n < 10 then [Digit(n)] else Decimal(n / 10) + [Digit(n % 10)]
  }

  const KIND := "funding"

  function CanonicalKey(workspace: string, id: nat, destination: string): string {
    KIND + ":" + workspace + ":" + Decimal(id) + ":" + destination
  }

  /** The database's own bigint input function: None when the text is not a bigint. */
  type ParseBigint = string -> Option<int>

  ghost predicate ParsesIds(parse: ParseBigint, ids: set<nat>) {
    forall id | id in ids :: id > 0 && parse(Decimal(id)) == Some(id)
  }

  /** The key a row gets when its subject is a merged-away case. */
  function NewKey(key: string, merge: map<nat, nat>, parse: ParseBigint): Option<string> {
    var kind, workspace, subject := Part(key, 0), Part(key, 1), Part(key, 2);
    if kind != KIND then None
    else
      match parse(subject)
      case None => None
      case Some(id) =>
        if id > 0 && id in merge
        then Some(CanonicalKey(workspace, merge[id], From(key, |kind| + |workspace| + |subject| + 3)))
        else None
  }

  /** The number a string of digits denotes. */
  function ValueOf(digits: string): int {
    if digits == [] then 0 else 10 * ValueOf(digits[..|digits| - 1]) + (digits[|digits| - 1] as int - '0' as int)
  }

  /** The printed form denotes the id and has no leading zero. */
  lemma {:induction false} DecimalReadsBack(n: nat)
    ensures ValueOf(Decimal(n)) == n && Decimal(n) != [] && (n > 0 ==> Decimal(n)[0] != '0')
  {
    if n >= 10 {
      DecimalReadsBack(n / 10);
      assert Decimal(n)[..|Decimal(n)| - 1] == Decimal(n / 10);
    } else {
      assert [Digit(n)][..0] == [];
    }
  }

  /** Exactly the funding keys whose subject is a merged-away case are re-keyed; keys of other kinds never are. */
  lemma OnlyMergedFundingKeys(key: string, merge: map<nat, nat>, parse: ParseBigint)
    ensures NewKey(key, merge, parse).Some? <==>
            && Part(key, 0) == "funding"
            && exists id: nat :: id > 0 && parse(Part(key, 2)) == Some(id) && id in merge
  {
    if Part(key, 0) == "funding" && parse(Part(key, 2)).Some? {
      var id := parse(Part(key, 2)).value;
      assert id > 0 && id in merge ==> (id as nat) in merge;
    }
  }

  lemma {:induction false} DecimalHasNoColon(n: nat)
    ensures ':' !in Decimal(n)
  {
    if n >= 10 {
      DecimalHasNoColon(n / 10);
    }
  }

  lemma {:induction false} ColonAtIs(head: string, rest: string)
    requires ':' !in head
    ensures ColonAt(head + [':'] + rest) == |head|
  {
    if head != [] {
      assert (head + [':'] + rest)[1..] == head[1..] + [':'] + rest;
      ColonAtIs(head[1..], rest);
    }
  }

  lemma PartsOfJoined(head: string, rest: string, n: nat)
    requires ':' !in head
    ensures Part(head + [':'] + rest, n) == if n == 0 then head else Part(rest, n - 1)
  {
    ColonAtIs(head, rest);
    var s := head + [':'] + rest;
    assert s[..|head|] == head && s[|head| + 1..] == rest;
  }

  lemma {:induction false} PartHasNoColon(s: string, n: nat)
    ensures ':' !in Part(s, n)
    decreases n
  {
    if n > 0 && ColonAt(s) < |s| {
      PartHasNoColon(s[ColonAt(s) + 1..], n - 1);
    }
  }

  /** A key built from segments gives them back, and a destination keeps its own colons. */
  lemma CanonicalParts(workspace: string, id: nat, destination: string)
    requires ':' !in workspace
    ensures var key := CanonicalKey(workspace, id, destination);
            && Part(key, 0) == KIND && Part(key, 1) == workspace && Part(key, 2) == Decimal(id)
            && From(key, |KIND| + |workspace| + |Decimal(id)| + 3) == destination
  {
    hide Part, Decimal, From;
    var subject := Decimal(id);
    var tail := subject + [':'] + destination;
    var middle := workspace + [':'] + tail;
    JoinedKey(workspace, id, destination);
    DecimalHasNoColon(id);
    PartsOfJoined(KIND, middle, 0);
    PartsOfJoined(KIND, middle, 1);
    PartsOfJoined(KIND, middle, 2);
    PartsOfJoined(workspace, tail, 0);
    PartsOfJoined(workspace, tail, 1);
    PartsOfJoined(subject, destination, 0);
  }

  lemma JoinedKey(workspace: string, id: nat, destination: string)
    ensures var subject, key := Decimal(id), CanonicalKey(workspace, id, destination);
            && key == KIND + [':'] + (workspace + [':'] + (subject + [':'] + destination))
            && From(key, |KIND| + |workspace| + |subject| + 3) == destination
  {
    hide Decimal;
    var front := KIND + ":" + workspace + ":" + Decimal(id) + ":";
    var key := CanonicalKey(workspace, id, destination);
    assert key == front + destination;
    assert key[|front|..] == destination;
  }

  /** Re-keying a canonical key changes its subject segment and nothing else. */
  lemma OnlySubjectChanges(workspace: string, id: nat, destination: string, merge: map<nat, nat>, parse: ParseBigint)
    requires ':' !in workspace && ParsesIds(parse, {id})
    ensures NewKey(CanonicalKey(workspace, id, destination), merge, parse) ==
            if id in merge then Some(CanonicalKey(workspace, merge[id], destination)) else None
  {
    CanonicalParts(workspace, id, destination);
  }

  /** A re-keyed key names a survivor, so it is never itself re-keyed. */
  lemma NewKeyIsFinal(key: string, merge: map<nat, nat>, parse: ParseBigint)
    requires NewKey(key, merge, parse).Some?
    requires ParsesIds(parse, merge.Values) && merge.Keys !! merge.Values
    ensures NewKey(NewKey(key, merge, parse).value, merge, parse).None?
  {
    hide Part, From, Decimal, CanonicalKey;
    var kind, workspace, subject := Part(key, 0), Part(key, 1), Part(key, 2);
    var id := parse(subject).value;
    var destination := From(key, |kind| + |workspace| + |subject| + 3);
    PartHasNoColon(key, 1);
    assert merge[id] in merge.Values;
    OnlySubjectChanges(workspace, merge[id], destination, merge, parse);
  }

  // ----- The alerts table -----

  datatype AlertState = PendingAlert | Sent | Dead

  datatype Alert = Alert(fundingCaseId: Option<nat>, state: AlertState, sentAt: Option<int>, nextAttemptAt: Option<int>,
                         claimToken: Option<string>, claimExpiresAt: Option<int>, payload: string)

  type Alerts = map<string, Alert>

  function Repointed(alerts: Alerts, merge: map<nat, nat>): Alerts {
    map k | k in alerts ::
      if alerts[k].fundingCaseId.Some? && alerts[k].fundingCaseId.value in merge
      then alerts[k].(fundingCaseId := Some(merge[alerts[k].fundingCaseId.value])) else alerts[k]
  }

  /** Old key to new key, for every row whose key names a merged-away case. */
  function Rekeys(alerts: Alerts, merge: map<nat, nat>, parse: ParseBigint): map<string, string> {
    map k | k in alerts && NewKey(k, merge, parse).Some? && NewKey(k, merge, parse).value != k :: NewKey(k, merge, parse).value
  }

  /** Rows already sent under an old key that re-keys to `target`. */
  function SentSources(alerts: Alerts, rekeys: map<string, string>, target: string): set<string> {
    set k | k in rekeys && rekeys[k] == target && k in alerts && alerts[k].state == Sent
  }

  function ToFold(alerts: Alerts, rekeys: map<string, string>): set<string> {
    set t | t in alerts && alerts[t].state != Sent && SentSources(alerts, rekeys, t) != {}
  }

  /** The update joins one sent row per target; which one, when there are several, is the database's choice. */
  predicate ValidChoice(alerts: Alerts, rekeys: map<string, string>, chosen: map<string, string>) {
    forall t | t in ToFold(alerts, rekeys) :: t in chosen && chosen[t] in SentSources(alerts, rekeys, t)
  }

  function FoldedRow(target: Alert, source: Alert): Alert {
    target.(state := Sent, sentAt := if target.sentAt.Some? then target.sentAt else source.sentAt,
            nextAttemptAt := None, claimToken := None, claimExpiresAt := None)
  }

  function Folded(alerts: Alerts, rekeys: map<string, string>, chosen: map<string, string>): Alerts
    requires ValidChoice(alerts, rekeys, chosen)
  {
    map t | t in alerts :: if t in ToFold(alerts, rekeys) then FoldedRow(alerts[t], alerts[chosen[t]]) else alerts[t]
  }

  /** Rows whose new key is taken are dropped; the row that holds it wins. */
  function WithoutCollisions(alerts: Alerts, rekeys: map<string, string>): Alerts {
    map k | k in alerts && !(k in rekeys && rekeys[k] in alerts) :: alerts[k]
  }

  /** Two rows about to take the same key: the primary key refuses the update. */
  predicate KeyClash(alerts: Alerts, rekeys: map<string, string>) {
    exists j, k :: j in alerts && k in alerts && j in rekeys && k in rekeys && j != k && rekeys[j] == rekeys[k]
  }

  function Moving(alerts: Alerts, rekeys: map<string, string>): set<string> {
    set k | k in alerts && k in rekeys
  }

  function Targets(alerts: Alerts, rekeys: map<string, string>): set<string> {
    set k | k in Moving(alerts, rekeys) :: rekeys[k]
  }

  /** The only row moving to `t`. */
  function SourceOf(alerts: Alerts, rekeys: map<string, string>, t: string): (k: string)
    requires t in Targets(alerts, rekeys) && !KeyClash(alerts, rekeys)
    ensures k in alerts && k in rekeys && rekeys[k] == t
  {
    var k :| k in alerts && k in rekeys && rekeys[k] == t;
    k
  }

  function Rekeyed(alerts: Alerts, rekeys: map<string, string>): Alerts
    requires !KeyClash(alerts, rekeys)
  {
    map t | t in (alerts.Keys - Moving(alerts, rekeys)) + Targets(alerts, rekeys) ::
      if t in Targets(alerts, rekeys) then alerts[SourceOf(alerts, rekeys, t)] else alerts[t]
  }

  /** The alert steps together; None when the primary key aborts. */
  function Reconciled(alerts: Alerts, merge: map<nat, nat>, parse: ParseBigint, chosen: map<string, string>): Option<Alerts>
    requires ValidChoice(Repointed(alerts, merge), Rekeys(alerts, merge, parse), chosen)
  {
    var rekeys := Rekeys(alerts, merge, parse);
    var kept := WithoutCollisions(Folded(Repointed(alerts, merge), rekeys, chosen), rekeys);
    if KeyClash(kept, rekeys) then None else Some(Rekeyed(kept, rekeys))
  }

  // ----- Results -----

  ghost predicate SurvivorsApart(merge: map<nat, nat>, parse: ParseBigint) {
    merge.Keys !! merge.Values && ParsesIds(parse, merge.Values)
  }

  /** No new key is an old key of another row. */
  lemma TargetsAreFinal(alerts: Alerts, merge: map<nat, nat>, parse: ParseBigint, k: string)
    requires SurvivorsApart(merge, parse) && k in Rekeys(alerts, merge, parse)
    ensures Rekeys(alerts, merge, parse)[k] !in Rekeys(alerts, merge, parse)
    ensures NewKey(Rekeys(alerts, merge, parse)[k], merge, parse).None?
  {
    NewKeyIsFinal(k, merge, parse);
  }

  /** The transaction aborts exactly when two dead keys re-key to one key no row holds yet. */
  lemma AbortsOnSharedAbsentTarget(alerts: Alerts, merge: map<nat, nat>, parse: ParseBigint, chosen: map<string, string>)
    requires ValidChoice(Repointed(alerts, merge), Rekeys(alerts, merge, parse), chosen)
    ensures var rekeys := Rekeys(alerts, merge, parse);
            Reconciled(alerts, merge, parse, chosen).None? <==>
              exists j, k :: j in rekeys && k in rekeys && j != k && rekeys[j] == rekeys[k] && rekeys[j] !in alerts
  {
    hide NewKey;
    var rekeys := Rekeys(alerts, merge, parse);
    var kept := WithoutCollisions(Folded(Repointed(alerts, merge), rekeys, chosen), rekeys);
    assert forall k | k in rekeys :: k in kept <==> rekeys[k] !in alerts;
  }

  /** The keys left by dropping collisions and moving the rest, when no target is itself a source. */
  lemma KeysOfRekeyed(keys: set<string>, kept: Alerts, rekeys: map<string, string>)
    requires rekeys.Keys <= keys && forall k | k in rekeys :: rekeys[k] !in rekeys
    requires kept.Keys == set k | k in keys && !(k in rekeys && rekeys[k] in keys)
    requires !KeyClash(kept, rekeys)
    ensures Rekeyed(kept, rekeys).Keys == (keys - rekeys.Keys) + rekeys.Values
  {
    hide KeyClash;
    var after := Rekeyed(kept, rekeys).Keys;
    forall t | t in rekeys.Values
      ensures t in after
    {
      var k :| k in rekeys && rekeys[k] == t;
      assert k in kept ==> rekeys[k] in Targets(kept, rekeys);
    }
    forall t | t in after
      ensures t in (keys - rekeys.Keys) + rekeys.Values
    {
      if t in Targets(kept, rekeys) {
        var k :| k in Moving(kept, rekeys) && rekeys[k] == t;
        assert rekeys[k] in rekeys.Values;
      }
    }
  }

  /** Which keys there are on commit: the others as they were, and the new keys; no dead case is named. */
  lemma KeysAfter(alerts: Alerts, merge: map<nat, nat>, parse: ParseBigint, chosen: map<string, string>)
    requires SurvivorsApart(merge, parse)
    requires ValidChoice(Repointed(alerts, merge), Rekeys(alerts, merge, parse), chosen)
    requires Reconciled(alerts, merge, parse, chosen).Some?
    ensures var rekeys, after := Rekeys(alerts, merge, parse), Reconciled(alerts, merge, parse, chosen).value;
            && after.Keys == (alerts.Keys - rekeys.Keys) + rekeys.Values
            && forall t | t in after :: NewKey(t, merge, parse).None?
  {
    hide NewKey, KeyClash, Rekeyed;
    var rekeys, after := Rekeys(alerts, merge, parse), Reconciled(alerts, merge, parse, chosen).value;
    var kept := WithoutCollisions(Folded(Repointed(alerts, merge), rekeys, chosen), rekeys);
    forall k | k in rekeys
      ensures rekeys[k] !in rekeys && NewKey(rekeys[k], merge, parse).None?
    {
      TargetsAreFinal(alerts, merge, parse, k);
    }
    KeysOfRekeyed(alerts.Keys, kept, rekeys);
    forall t | t in after
      ensures NewKey(t, merge, parse).None?
    {
      if t in rekeys.Values {
        var k :| k in rekeys && rekeys[k] == t;
      } else {
        NotRekeyedIsNotDead(alerts, merge, parse, t);
      }
    }
  }

  lemma NotRekeyedIsNotDead(alerts: Alerts, merge: map<nat, nat>, parse: ParseBigint, t: string)
    requires SurvivorsApart(merge, parse) && t in alerts && t !in Rekeys(alerts, merge, parse)
    ensures NewKey(t, merge, parse).None?
  {
    if NewKey(t, merge, parse).Some? {
      NewKeyIsFinal(t, merge, parse);
    }
  }

  /** What a committed row is: the row that held the key, or the one row that moved to it, folded if need be. */
  lemma RowAfter(alerts: Alerts, merge: map<nat, nat>, parse: ParseBigint, chosen: map<string, string>, t: string)
    requires SurvivorsApart(merge, parse)
    requires ValidChoice(Repointed(alerts, merge), Rekeys(alerts, merge, parse), chosen)
    requires Reconciled(alerts, merge, parse, chosen).Some?
    requires t in Reconciled(alerts, merge, parse, chosen).value
    ensures var rekeys, rows := Rekeys(alerts, merge, parse), Repointed(alerts, merge);
            var row := Reconciled(alerts, merge, parse, chosen).value[t];
            if t in alerts
            then t !in rekeys && row == if t in ToFold(rows, rekeys) then FoldedRow(rows[t], rows[chosen[t]]) else rows[t]
            else exists k :: k in rekeys && rekeys[k] == t && row == rows[k] && forall j | j in rekeys && rekeys[j] == t :: j == k
  {
    hide NewKey, FoldedRow;
    var rekeys, rows := Rekeys(alerts, merge, parse), Repointed(alerts, merge);
    var folded := Folded(rows, rekeys, chosen);
    var kept := WithoutCollisions(folded, rekeys);
    KeysAfter(alerts, merge, parse, chosen);
    forall k | k in rekeys
      ensures rekeys[k] !in rekeys
    {
      TargetsAreFinal(alerts, merge, parse, k);
    }
    assert forall k | k in rekeys :: k in kept <==> rekeys[k] !in alerts;
    if t !in alerts {
      var k := SourceOf(kept, rekeys, t);
      assert SentSources(rows, rekeys, k) == {};
      assert Reconciled(alerts, merge, parse, chosen).value[t] == kept[k] == rows[k];
    }
  }

  /** A row that became sent keeps its payload, is no longer due or claimed, and has a delivery time if one is known. */
  ghost predicate Delivered(alerts: Alerts, rekeys: map<string, string>, t: string, row: Alert)
    requires t in alerts && rekeys.Keys <= alerts.Keys
  {
    && row.payload == alerts[t].payload
    && row.nextAttemptAt.None? && row.claimToken.None? && row.claimExpiresAt.None?
    && if alerts[t].sentAt.Some? then row.sentAt == alerts[t].sentAt
       else exists k :: k in rekeys && rekeys[k] == t && alerts[k].state == Sent && row.sentAt == alerts[k].sentAt
  }

  /** A delivery fact folded into a row is a real one, and ends every attempt on it. */
  lemma FoldedIsDelivered(alerts: Alerts, merge: map<nat, nat>, parse: ParseBigint, chosen: map<string, string>, t: string)
    requires SurvivorsApart(merge, parse)
    requires ValidChoice(Repointed(alerts, merge), Rekeys(alerts, merge, parse), chosen)
    requires Reconciled(alerts, merge, parse, chosen).Some?
    requires t in alerts && t in Reconciled(alerts, merge, parse, chosen).value
    ensures var rekeys, row := Rekeys(alerts, merge, parse), Reconciled(alerts, merge, parse, chosen).value[t];
            if alerts[t].state != Sent && row.state == Sent then Delivered(alerts, rekeys, t, row)
            else row == Repointed(alerts, merge)[t]
  {
    hide NewKey, Reconciled;
    var rekeys, rows := Rekeys(alerts, merge, parse), Repointed(alerts, merge);
    RowAfter(alerts, merge, parse, chosen, t);
    if t in ToFold(rows, rekeys) {
      assert chosen[t] in SentSources(rows, rekeys, t);
      assert rows[chosen[t]].sentAt == alerts[chosen[t]].sentAt && alerts[chosen[t]].state == Sent;
    }
  }

  /** A committed row is sent exactly when it was sent under its own key or some row re-keyed to it was. */
  lemma SentStaysSent(alerts: Alerts, merge: map<nat, nat>, parse: ParseBigint, chosen: map<string, string>, t: string)
    requires SurvivorsApart(merge, parse)
    requires ValidChoice(Repointed(alerts, merge), Rekeys(alerts, merge, parse), chosen)
    requires Reconciled(alerts, merge, parse, chosen).Some?
    requires t in Reconciled(alerts, merge, parse, chosen).value
    ensures var rekeys := Rekeys(alerts, merge, parse);
            Reconciled(alerts, merge, parse, chosen).value[t].state == Sent <==>
              (t in alerts && alerts[t].state == Sent) || exists k :: k in rekeys && rekeys[k] == t && alerts[k].state == Sent
  {
    hide NewKey, Reconciled;
    var rekeys, rows := Rekeys(alerts, merge, parse), Repointed(alerts, merge);
    RowAfter(alerts, merge, parse, chosen, t);
    assert forall k | k in alerts :: rows[k].state == alerts[k].state;
    if t in alerts {
      if k :| k in rekeys && rekeys[k] == t && alerts[k].state == Sent {
        assert k in SentSources(rows, rekeys, t);
      }
      if t in ToFold(rows, rekeys) {
        assert chosen[t] in SentSources(rows, rekeys, t);
      }
    }
  }
}
