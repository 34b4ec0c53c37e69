/** The funding-case repair transaction over cases, events and alerts (src/db.rs). */
module FundingRepair {
  import opened Util
  import opened FundingCaseMerge
  import opened AlertRekey

  /** `tenantIndex` is the unique index of the later migration: its presence means nothing is left to do. */
  datatype Store = Store(cases: Cases, events: Events, alerts: Alerts, tenantIndex: bool)

  datatype Outcome = Untouched | Committed | Aborted

  predicate NeedsRepair(st: Store) {
    !st.tenantIndex && (HasNonObject(st.cases) || HasDuplicates(st.cases))
  }

  function MergeOf(st: Store): map<nat, nat> {
    MergeMap(Normalized(st.cases))
  }

  /** The choice of sent rows made by the folding update, when the run gets that far. */
  predicate ChoiceFits(st: Store, parse: ParseBigint, chosen: map<string, string>) {
    NeedsRepair(st) && MergeOf(st) != map[] ==>
      ValidChoice(Repointed(st.alerts, MergeOf(st)), Rekeys(st.alerts, MergeOf(st), parse), chosen)
  }

  function Repaired(st: Store, parse: ParseBigint, chosen: map<string, string>): (Outcome, Store)
    requires ChoiceFits(st, parse, chosen)
  {
    if !NeedsRepair(st) then (Untouched, st)
    else
      var normalized := Normalized(st.cases);
      var merge := MergeMap(normalized);
      if merge == map[] then (Committed, st.(cases := normalized))
      else
        match Reconciled(st.alerts, merge, parse, chosen)
        case None => (Aborted, st)
        case Some(alerts) => (Committed, st.(cases := Merged(normalized), events := RepointedEvents(st.events, merge), alerts := alerts))
  }

  class RepairStore {
    var cases: Cases
    var events: Events
    var alerts: Alerts
    var tenantIndex: bool

    ghost function State(): Store
      reads this
    {
      Store(cases, events, alerts, tenantIndex)
    }

    constructor (st: Store)
      ensures State() == st
    {
      cases, events, alerts, tenantIndex := st.cases, st.events, st.alerts, st.tenantIndex;
    }

    /** For every target to fold, some sent row that re-keys to it. */
    method ChooseSources(rekeys: map<string, string>) returns (chosen: map<string, string>)
      ensures ValidChoice(alerts, rekeys, chosen)
    {
      chosen := map[];
      var left := ToFold(alerts, rekeys);
      while left != {}
        invariant left <= ToFold(alerts, rekeys)
        invariant forall t | t in ToFold(alerts, rekeys) - left :: t in chosen && chosen[t] in SentSources(alerts, rekeys, t)
      {
        var t :| t in left;
        var source :| source in SentSources(alerts, rekeys, t);
        chosen := chosen[t := source];
        left := left - {t};
      }
    }

    /** Foreign keys first, then the keys: fold, drop collisions, rewrite. False when the primary key refuses. */
    method ReconcileAlerts(merge: map<nat, nat>, parse: ParseBigint) returns (done: bool, chosen: map<string, string>)
      modifies this`alerts
      ensures ValidChoice(Repointed(old(alerts), merge), Rekeys(old(alerts), merge, parse), chosen)
      ensures done == Reconciled(old(alerts), merge, parse, chosen).Some?
      ensures done ==> alerts == Reconciled(old(alerts), merge, parse, chosen).value
    {
      alerts := Repointed(alerts, merge);
      var rekeys := Rekeys(alerts, merge, parse);
      assert rekeys == Rekeys(old(alerts), merge, parse) by {
        hide NewKey;
      }
      chosen := ChooseSources(rekeys);
      alerts := Folded(alerts, rekeys, chosen);
      alerts := WithoutCollisions(alerts, rekeys);
      if KeyClash(alerts, rekeys) {
        return false, chosen;
      }
      alerts := Rekeyed(alerts, rekeys);
      done := true;
    }

    method Repair(parse: ParseBigint) returns (outcome: Outcome, chosen: map<string, string>)
      modifies this
      ensures ChoiceFits(old(State()), parse, chosen)
      ensures (outcome, State()) == Repaired(old(State()), parse, chosen)
    {
      hide ValidChoice, Reconciled, MergeMap, Normalized, WithMerged, WithoutDead, RepointedEvents, HasNonObject, HasDuplicates;
      var begunCases, begunEvents, begunAlerts := cases, events, alerts;
      if tenantIndex || (!HasNonObject(cases) && !HasDuplicates(cases)) {
        return Untouched, map[];
      }
      var normalized := Normalized(cases);
      var merge := MergeMap(normalized);
      if merge == map[] {
        cases := normalized;
        return Committed, map[];
      }
      cases := WithMerged(normalized);
      events := RepointedEvents(events, merge);
      var done: bool;
      done, chosen := ReconcileAlerts(merge, parse);
      if !done {
        cases, events, alerts := begunCases, begunEvents, begunAlerts;
        return Aborted, chosen;
      }
      cases := WithoutDead(cases, merge.Keys);
      outcome := Committed;
    }
  }

  // ----- Main results -----

  ghost predicate SameIdentities(a: Cases, b: Cases) {
    a.Keys == b.Keys && forall id | id in a :: Identity(a[id]) == Identity(b[id])
  }

  lemma SameSurvivor(a: Cases, b: Cases, id: nat)
    requires SameIdentities(a, b) && id in a
    ensures Group(a, id) == Group(b, id) && Survivor(a, id) == Survivor(b, id)
  {
    assert Group(a, id) == Group(b, id);
  }

  lemma SameDuplicates(a: Cases, b: Cases)
    requires SameIdentities(a, b) && HasDuplicates(a)
    ensures HasDuplicates(b)
  {
    hide Identity;
    var i, j :| i in a && j in a && i != j && Identity(a[i]) == Identity(a[j]);
    assert i in b && j in b && Identity(b[i]) == Identity(b[j]);
  }

  lemma SameMerge(a: Cases, b: Cases)
    requires SameIdentities(a, b)
    ensures MergeMap(a) == MergeMap(b)
  {
    hide Survivor, Identity, Group;
    forall id | id in a
      ensures Survivor(a, id) == Survivor(b, id)
    {
      SameSurvivor(a, b, id);
    }
  }

  lemma NormalizingKeepsIdentity(cases: Cases)
    ensures SameIdentities(Normalized(cases), cases) && !HasNonObject(Normalized(cases))
    ensures MergeMap(Normalized(cases)) == MergeMap(cases) && (HasDuplicates(Normalized(cases)) <==> HasDuplicates(cases))
  {
    hide MergeMap;
    SameMerge(Normalized(cases), cases);
    if HasDuplicates(cases) {
      SameDuplicates(cases, Normalized(cases));
    } else if HasDuplicates(Normalized(cases)) {
      SameDuplicates(Normalized(cases), cases);
    }
  }

  /** Both ways of committing in one form: without duplicates merging and repointing do nothing. */
  lemma CommitShape(st: Store, parse: ParseBigint, chosen: map<string, string>)
    requires ChoiceFits(st, parse, chosen) && Repaired(st, parse, chosen).0.Committed?
    ensures var merge, after := MergeOf(st), Repaired(st, parse, chosen).1;
            && after.cases == Merged(Normalized(st.cases)) && after.events == RepointedEvents(st.events, merge)
            && if merge == map[] then after.alerts == st.alerts
               else ValidChoice(Repointed(st.alerts, merge), Rekeys(st.alerts, merge, parse), chosen) &&
                    Reconciled(st.alerts, merge, parse, chosen) == Some(after.alerts)
  {
    hide Rekeys, Reconciled, ValidChoice, MergedCase, Normalized, Survivor;
    var cases := Normalized(st.cases);
    if MergeMap(cases) == map[] {
      assert MergeMap(cases).Values == {};
      assert WithMerged(cases) == cases;
      assert Merged(cases) == cases;
      assert RepointedEvents(st.events, map[]) == st.events;
    }
  }

  /** Aborting changes nothing, and happens only when two dead keys share an absent target. */
  lemma AbortIsClean(st: Store, parse: ParseBigint, chosen: map<string, string>)
    requires ChoiceFits(st, parse, chosen)
    ensures var (outcome, after) := Repaired(st, parse, chosen);
            var rekeys := Rekeys(st.alerts, MergeOf(st), parse);
            && (outcome.Aborted? ==> after == st)
            && (outcome.Aborted? <==>
                  NeedsRepair(st) && HasDuplicates(st.cases) &&
                  exists j, k :: j in rekeys && k in rekeys && j != k && rekeys[j] == rekeys[k] && rekeys[j] !in st.alerts)
  {
    hide Rekeys, Reconciled, ValidChoice;
    NormalizingKeepsIdentity(st.cases);
    SurvivorsAreAlive(Normalized(st.cases));
    if NeedsRepair(st) && MergeOf(st) != map[] {
      AbortsOnSharedAbsentTarget(st.alerts, MergeOf(st), parse, chosen);
    }
  }

  /** What a commit leaves of the cases: per identity the lowest id, with its whole group merged into it. */
  lemma CommittedCases(st: Store, parse: ParseBigint, chosen: map<string, string>)
    requires ChoiceFits(st, parse, chosen) && Repaired(st, parse, chosen).0.Committed?
    ensures var before, after := Normalized(st.cases), Repaired(st, parse, chosen).1.cases;
            && !HasNonObject(after) && !HasDuplicates(after)
            && (forall id :: id in after <==> id in before && Survivor(before, id) == id)
            && (forall id | id in after && Group(before, id) == {id} :: after[id] == before[id])
            && (forall id | id in after && Group(before, id) != {id} :: after[id] == MergedCase(before, id))
  {
    hide Repaired, ChoiceFits, Merged, MergedCase, Survivor, Group;
    NormalizingKeepsIdentity(st.cases);
    CommitShape(st, parse, chosen);
    MergedShape(Normalized(st.cases));
  }

  /**
    * No evidence is lost: after a commit a case holds under every key exactly the value of the newest case
    * of its old group that held one there, scalars and arrays whole under their own name.
    */
  lemma EvidenceIsKept(st: Store, parse: ParseBigint, chosen: map<string, string>)
    requires ChoiceFits(st, parse, chosen) && Repaired(st, parse, chosen).0.Committed?
    ensures var after := Repaired(st, parse, chosen).1.cases;
            forall id | id in after ::
              id in st.cases && forall k, v :: HoldsValue(after[id], k, v) <==> NewestValue(st.cases, Group(st.cases, id), k, v)
  {
    hide Repaired, ChoiceFits, MergedCase, Survivor, Group, Normalized, HoldsValue, NewestValue, SameIdentities;
    var before, after := Normalized(st.cases), Repaired(st, parse, chosen).1.cases;
    CommittedCases(st, parse, chosen);
    NormalizingKeepsIdentity(st.cases);
    SameKeys(before, st.cases);
    forall id | id in after
      ensures forall k, v :: HoldsValue(after[id], k, v) <==> NewestValue(st.cases, Group(st.cases, id), k, v)
    {
      SameSurvivor(before, st.cases, id);
      SameNewest(st.cases, Group(st.cases, id));
      if Group(before, id) == {id} {
        LoneNewest(before, id);
      } else {
        MergedNewest(before, id);
      }
    }
  }

  lemma SameKeys(a: Cases, b: Cases)
    requires SameIdentities(a, b)
    ensures a.Keys == b.Keys
  {
  }

  lemma SameNewest(cases: Cases, group: set<nat>)
    ensures forall k, v :: NewestValue(Normalized(cases), group, k, v) <==> NewestValue(cases, group, k, v)
  {
    hide Normalized, HoldsValue;
    NormalizingKeepsValues(cases);
    NormalizingKeepsIdentity(cases);
    SameKeys(Normalized(cases), cases);
    forall k, v
      ensures NewestValue(Normalized(cases), group, k, v) <==> NewestValue(cases, group, k, v)
    {
    }
  }

  lemma LoneNewest(cases: Cases, id: nat)
    requires id in cases
    ensures forall k, v :: HoldsValue(cases[id], k, v) <==> NewestValue(cases, {id}, k, v)
  {
    hide HoldsValue;
  }

  lemma MergedNewest(cases: Cases, id: nat)
    requires id in cases && !HasNonObject(cases)
    ensures forall k, v :: HoldsValue(MergedCase(cases, id), k, v) <==> NewestValue(cases, Group(cases, id), k, v)
  {
    hide MergedCase;
    var m, group := MergedCase(cases, id), Group(cases, id);
    MergeLosesNothing(cases, id);
    forall i | i in cases
      ensures cases[i].evidence.JObject?
    {
    }
    forall k, v
      ensures HoldsValue(m, k, v) <==> NewestValue(cases, group, k, v)
    {
      if k in m.evidence.fields {
        var i :| i in group && i in cases && NewestHolder(cases, group, i, k, m.evidence.fields[k]);
        assert HoldsValue(cases[i], k, m.evidence.fields[k]);
      }
      if NewestValue(cases, group, k, v) {
        var j :| j in group && j in cases && HoldsValue(cases[j], k, v) &&
                 forall l, w | l in group && l in cases && HoldsValue(cases[l], k, w) :: l <= j;
        assert k in FieldsOf(cases[j].evidence);
      }
    }
  }

  /**
    * Every other column, over the cases as they were: a lone case keeps its own; a merged one has the maxima,
    * the facts of the row funded first, the most advanced stage and the reason of the last dismissal.
    */
  lemma ColumnsAreKept(st: Store, parse: ParseBigint, chosen: map<string, string>)
    requires ChoiceFits(st, parse, chosen) && Repaired(st, parse, chosen).0.Committed?
    ensures var after := Repaired(st, parse, chosen).1.cases;
            forall id | id in after ::
              && id in st.cases
              && if Group(st.cases, id) == {id} then after[id] == st.cases[id].(evidence := after[id].evidence)
                 else ColumnsFit(after[id], st.cases, Group(st.cases, id))
  {
    hide Repaired, ChoiceFits, MergedCase, Survivor, Group, Normalized, SameIdentities, ColumnsFit;
    var before, after := Normalized(st.cases), Repaired(st, parse, chosen).1.cases;
    CommittedCases(st, parse, chosen);
    NormalizingKeepsIdentity(st.cases);
    NormalizingKeepsValues(st.cases);
    SameKeys(before, st.cases);
    forall id | id in after
      ensures if Group(st.cases, id) == {id} then after[id] == st.cases[id].(evidence := after[id].evidence)
              else ColumnsFit(after[id], st.cases, Group(st.cases, id))
    {
      SameSurvivor(before, st.cases, id);
      MergedColumns(before, id);
      SameColumns(st.cases, after[id], Group(st.cases, id));
    }
  }

  ghost predicate ColumnsFit(m: CaseRow, cases: Cases, group: set<nat>) {
    (forall i | i in group && i in cases :: Covers(m, cases[i])) && Attained(m, cases, group) && ReasonFits(m, cases, group)
  }

  lemma MergedColumns(cases: Cases, id: nat)
    requires id in cases
    ensures ColumnsFit(MergedCase(cases, id), cases, Group(cases, id))
  {
    hide MergedCase, Group, Covers, Attained, ReasonFits;
    MergeLosesNothing(cases, id);
  }

  /** The statements about columns other than the evidence read the same on normalised cases. */
  lemma SameColumns(cases: Cases, m: CaseRow, group: set<nat>)
    ensures ColumnsFit(m, Normalized(cases), group) ==> ColumnsFit(m, cases, group)
  {
    hide Normalized;
    var before := Normalized(cases);
    NormalizingKeepsValues(cases);
    NormalizingKeepsIdentity(cases);
    SameStages(cases, group);
    assert Dismissals(before, group) == Dismissals(cases, group);
    if ColumnsFit(m, before, group) {
      SameAttained(cases, m, group);
      forall i | i in group && i in cases
        ensures Covers(m, cases[i])
      {
        assert Covers(m, before[i]);
      }
    }
  }

  lemma SameAttained(cases: Cases, m: CaseRow, group: set<nat>)
    requires Attained(m, Normalized(cases), group)
    ensures Attained(m, cases, group)
  {
    hide Normalized;
    NormalizingKeepsValues(cases);
    NormalizingKeepsIdentity(cases);
    SameStages(cases, group);
  }

  lemma SameStages(cases: Cases, group: set<nat>)
    ensures forall stage :: SomeIn(Normalized(cases), group, stage) <==> SomeIn(cases, group, stage)
  {
    hide Normalized;
    NormalizingKeepsValues(cases);
    NormalizingKeepsIdentity(cases);
  }

  lemma MergedShape(cases: Cases)
    requires !HasNonObject(cases)
    ensures var after := Merged(cases);
            && !HasNonObject(after) && !HasDuplicates(after)
            && (forall id :: id in after <==> id in cases && Survivor(cases, id) == id)
            && (forall id | id in after && Group(cases, id) == {id} :: after[id] == cases[id])
            && (forall id | id in after && Group(cases, id) != {id} :: after[id] == MergedCase(cases, id))
  {
    OneCasePerIdentity(cases);
    var after := Merged(cases);
    forall id | id in after
      ensures id in MergeMap(cases).Values <==> Group(cases, id) != {id}
    {
      SurvivorHasGroup(cases, id);
    }
    MergedIsObject(cases);
  }

  lemma SurvivorHasGroup(cases: Cases, id: nat)
    requires id in cases && Survivor(cases, id) == id
    ensures id in MergeMap(cases).Values <==> Group(cases, id) != {id}
  {
    if id in MergeMap(cases).Values {
      var i :| i in MergeMap(cases) && MergeMap(cases)[i] == id;
      assert i in Group(cases, id) && i != id;
    }
    if Group(cases, id) != {id} {
      assert id in Group(cases, id);
      var i :| i in Group(cases, id) && i != id;
      SurvivorIsShared(cases, i, id);
      assert i in MergeMap(cases) && MergeMap(cases)[i] == id;
    }
  }

  lemma MergedIsObject(cases: Cases)
    requires !HasNonObject(cases)
    ensures !HasNonObject(Merged(cases))
  {
    hide MergedEvidence, Pick, Dismissals;
    var after := Merged(cases);
    forall id | id in after
      ensures after[id].evidence.JObject?
    {
      assert id in cases && cases[id].evidence.JObject?;
    }
  }

  /** The repair leaves the store alone exactly when the later index is there or no case needs it. */
  lemma UntouchedWhenHealthy(st: Store, parse: ParseBigint, chosen: map<string, string>)
    requires ChoiceFits(st, parse, chosen)
    ensures var (outcome, after) := Repaired(st, parse, chosen);
            && (outcome.Untouched? ==> after == st)
            && (outcome.Untouched? <==>
                  || st.tenantIndex
                  || ((forall i | i in st.cases :: st.cases[i].evidence.JObject?) &&
                      forall i, j | i in st.cases && j in st.cases && i != j :: !SameRecipient(st.cases[i], st.cases[j])))
            && after.tenantIndex == st.tenantIndex
  {
    hide Normalized, MergeMap, Reconciled;
  }

  predicate SameRecipient(c: CaseRow, d: CaseRow) {
    c.workspace == d.workspace && c.chain == d.chain && c.recipient == d.recipient
  }

  /** After a commit there is nothing left to repair: running again touches nothing. */
  lemma RepairIsIdempotent(st: Store, parse: ParseBigint, chosen: map<string, string>, again: map<string, string>)
    requires ChoiceFits(st, parse, chosen) && !Repaired(st, parse, chosen).0.Aborted?
    requires ChoiceFits(Repaired(st, parse, chosen).1, parse, again)
    ensures Repaired(Repaired(st, parse, chosen).1, parse, again) == (Untouched, Repaired(st, parse, chosen).1)
  {
    if Repaired(st, parse, chosen).0.Committed? {
      CommittedCases(st, parse, chosen);
    }
  }

  /** Foreign keys of events and alerts point at existing cases. */
  ghost predicate Linked(st: Store) {
    && (forall e | e in st.events :: st.events[e].caseId in st.cases)
    && (forall k | k in st.alerts && st.alerts[k].fundingCaseId.Some? :: st.alerts[k].fundingCaseId.value in st.cases)
  }

  /** Every event survives under its own id, moved to the survivor of its old case and otherwise untouched. */
  lemma EventsFollowSurvivors(st: Store, parse: ParseBigint, chosen: map<string, string>)
    requires ChoiceFits(st, parse, chosen) && Linked(st) && Repaired(st, parse, chosen).0.Committed?
    ensures var after := Repaired(st, parse, chosen).1;
            && after.events.Keys == st.events.Keys
            && forall e | e in st.events ::
                 && after.events[e] == st.events[e].(caseId := Survivor(st.cases, st.events[e].caseId))
                 && after.events[e].caseId in after.cases
  {
    hide Repaired, ChoiceFits, Merged, Survivor, Normalized;
    NormalizingKeepsIdentity(st.cases);
    CommitShape(st, parse, chosen);
    var before := Normalized(st.cases);
    forall e | e in st.events
      ensures RepointedEvents(st.events, MergeOf(st))[e] == st.events[e].(caseId := Survivor(st.cases, st.events[e].caseId))
      ensures Survivor(st.cases, st.events[e].caseId) in Merged(before)
    {
      Forwarded(before, st.cases, st.events[e].caseId);
    }
  }

  /** Where a reference to a case goes, and that it still finds one. */
  lemma Forwarded(normalized: Cases, cases: Cases, id: nat)
    requires SameIdentities(normalized, cases) && id in cases
    ensures var merge := MergeMap(normalized);
            Survivor(cases, id) == (if id in merge then merge[id] else id) && Survivor(cases, id) in Merged(normalized)
  {
    hide Survivor, Merged;
    SameSurvivor(normalized, cases, id);
    OneCasePerIdentity(normalized);
  }

  /** No committed alert refers to a case that is gone, by foreign key or by key. */
  lemma AlertsFollowSurvivors(st: Store, parse: ParseBigint, chosen: map<string, string>)
    requires ChoiceFits(st, parse, chosen) && Linked(st) && Repaired(st, parse, chosen).0.Committed?
    requires ParsesIds(parse, st.cases.Keys)
    ensures var after := Repaired(st, parse, chosen).1;
            && Linked(after)
            && forall k | k in after.alerts :: NewKey(k, MergeOf(st), parse).None?
  {
    hide Repaired, Reconciled, Merged, NewKey, Rekeys, ValidChoice, ChoiceFits, NeedsRepair;
    NormalizingKeepsIdentity(st.cases);
    CommitShape(st, parse, chosen);
    EventsFollowSurvivors(st, parse, chosen);
    var merge, after := MergeOf(st), Repaired(st, parse, chosen).1;
    MergeStaysApart(st, parse);
    if merge == map[] {
      NoMergeNoRekey(parse);
      forall k | k in st.alerts && st.alerts[k].fundingCaseId.Some? {
        Forwarded(Normalized(st.cases), st.cases, st.alerts[k].fundingCaseId.value);
      }
    } else {
      KeysAfter(st.alerts, merge, parse, chosen);
      forall k | k in after.alerts && after.alerts[k].fundingCaseId.Some?
        ensures after.alerts[k].fundingCaseId.value in after.cases
      {
        var source := RowSource(st.alerts, merge, parse, chosen, k);
        Forwarded(Normalized(st.cases), st.cases, st.alerts[source].fundingCaseId.value);
      }
    }
  }

  /** The foreign key of every committed alert is that of an old one, moved to the survivor of its case. */
  lemma AlertLinksFollow(st: Store, parse: ParseBigint, chosen: map<string, string>, k: string) returns (source: string)
    requires ChoiceFits(st, parse, chosen) && Linked(st) && Repaired(st, parse, chosen).0.Committed?
    requires ParsesIds(parse, st.cases.Keys) && k in Repaired(st, parse, chosen).1.alerts
    ensures source in st.alerts && (k in st.alerts ==> source == k)
    ensures Repaired(st, parse, chosen).1.alerts[k].fundingCaseId ==
            match st.alerts[source].fundingCaseId case None => None case Some(id) => Some(Survivor(st.cases, id))
  {
    hide Repaired, Reconciled, Merged, NewKey, Rekeys, ValidChoice, ChoiceFits, NeedsRepair, Survivor;
    NormalizingKeepsIdentity(st.cases);
    CommitShape(st, parse, chosen);
    MergeStaysApart(st, parse);
    if MergeOf(st) == map[] {
      source := k;
    } else {
      source := RowSource(st.alerts, MergeOf(st), parse, chosen, k);
    }
    if st.alerts[source].fundingCaseId.Some? {
      Forwarded(Normalized(st.cases), st.cases, st.alerts[source].fundingCaseId.value);
    }
  }

  lemma MergeStaysApart(st: Store, parse: ParseBigint)
    requires ParsesIds(parse, st.cases.Keys)
    ensures SurvivorsApart(MergeOf(st), parse)
  {
    hide Survivor;
    SurvivorsAreAlive(Normalized(st.cases));
    var merge := MergeOf(st);
    forall v | v in merge.Values
      ensures v in st.cases.Keys && v !in merge.Keys
    {
      var id :| id in merge && merge[id] == v;
    }
  }

  /** The old row whose foreign key a committed alert carries. */
  lemma RowSource(alerts: Alerts, merge: map<nat, nat>, parse: ParseBigint, chosen: map<string, string>, t: string) returns (k: string)
    requires SurvivorsApart(merge, parse)
    requires ValidChoice(Repointed(alerts, merge), Rekeys(alerts, merge, parse), chosen)
    requires Reconciled(alerts, merge, parse, chosen).Some?
    requires t in Reconciled(alerts, merge, parse, chosen).value
    ensures k in alerts && (t in alerts ==> k == t)
    ensures Reconciled(alerts, merge, parse, chosen).value[t].fundingCaseId == Repointed(alerts, merge)[k].fundingCaseId
  {
    hide Reconciled, NewKey;
    RowAfter(alerts, merge, parse, chosen, t);
    var rekeys := Rekeys(alerts, merge, parse);
    if t in alerts {
      k := t;
    } else {
      k :| k in rekeys && rekeys[k] == t && Reconciled(alerts, merge, parse, chosen).value[t] == Repointed(alerts, merge)[k];
    }
  }

  lemma NoMergeNoRekey(parse: ParseBigint)
    ensures forall k :: NewKey(k, map[], parse).None?
  {
  }
}
