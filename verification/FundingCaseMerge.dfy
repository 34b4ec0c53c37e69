/** Merging duplicate funding cases (src/db.rs): survivor selection and field-wise merge. */
module FundingCaseMerge {
  import opened Util
  import opened FundingRadar

  datatype Json = JObject(fields: map<string, Json>) | JOther(text: string)

  datatype CaseRow = CaseRow(
    workspace: int, chain: string, recipient: string, firstFundedAt: int, firstFundingUsd: Option<real>,
    firstFundingNative: real, sourceAddress: string, sourceKind: Option<string>, fanoutCount: int,
    deployWindowEndsAt: int, stage: Stage, confidence: int, evidence: Json, updatedAt: int, dismissedReason: Option<string>)

  datatype EventRow = EventRow(caseId: nat, kind: string, observedAt: int, evidence: Json)

  type Cases = map<nat, CaseRow>
  type Events = map<nat, EventRow>

  function Identity(c: CaseRow): (int, string, string) {
    (c.workspace, c.chain, c.recipient)
  }

  // ----- Choosing one row of a group -----

  datatype Column = FirstFundedAt | Confidence | FanoutCount | UpdatedAt | DeployWindow | StageColumn | IdOnly

  function StageRank(s: Stage): int {
    match s case Funded => 1 case Preparation => 2 case Deployed => 3 case Dismissed => 4
  }

  /** The value a group is ordered by, ascending; maxima are ordered by their negation. */
  function OrderKey(cases: Cases, column: Column, i: nat): int {
    if i !in cases then 0
    else
      match column
      case FirstFundedAt => cases[i].firstFundedAt
      case Confidence => -cases[i].confidence
      case FanoutCount => -cases[i].fanoutCount
      case UpdatedAt => -cases[i].updatedAt
      case DeployWindow => -cases[i].deployWindowEndsAt
      case StageColumn => -StageRank(cases[i].stage)
      case IdOnly => 0
  }

  /** `m` precedes `x`: by column, ties going to the lower id, or to the higher when `newest`. */
  predicate Precedes(cases: Cases, column: Column, newest: bool, m: nat, x: nat) {
    var km, kx := OrderKey(cases, column, m), OrderKey(cases, column, x);
    km < kx || (km == kx && if newest then x <= m else m <= x)
  }

  ghost predicate IsFirst(cases: Cases, s: set<nat>, column: Column, newest: bool, m: nat) {
    m in s && forall x | x in s :: Precedes(cases, column, newest, m, x)
  }

  function Pick(cases: Cases, s: set<nat>, column: Column, newest: bool): (m: nat)
    requires s != {}
    ensures IsFirst(cases, s, column, newest, m)
  {
    PickExists(cases, s, column, newest);
    var m :| m in s && forall x | x in s :: Precedes(cases, column, newest, m, x);
    m
  }

  lemma {:induction false} PickExists(cases: Cases, s: set<nat>, column: Column, newest: bool)
    requires s != {}
    ensures exists m :: IsFirst(cases, s, column, newest, m)
  {
    var x :| x in s;
    var rest := s - {x};
    if rest == {} {
      assert s == {x} + rest == {x};
      assert IsFirst(cases, s, column, newest, x);
    } else {
      PickExists(cases, rest, column, newest);
      var m :| IsFirst(cases, rest, column, newest, m);
      FirstOfMore(cases, x, m, rest, s, column, newest);
    }
  }

  lemma FirstOfMore(cases: Cases, x: nat, m: nat, rest: set<nat>, s: set<nat>, column: Column, newest: bool)
    requires IsFirst(cases, rest, column, newest, m) && s == rest + {x}
    ensures IsFirst(cases, s, column, newest, if Precedes(cases, column, newest, x, m) then x else m)
  {
    hide OrderKey;
  }

  // ----- Groups and survivors -----

  function Group(cases: Cases, id: nat): set<nat>
    requires id in cases
  {
    set i | i in cases && Identity(cases[i]) == Identity(cases[id])
  }

  function Survivor(cases: Cases, id: nat): (keep: nat)
    requires id in cases
    ensures keep in Group(cases, id) && forall i | i in Group(cases, id) :: keep <= i
  {
    assert id in Group(cases, id);
    MinOf(Group(cases, id))
  }

  /** Dead case to survivor; survivors are not in it. */
  function MergeMap(cases: Cases): map<nat, nat> {
    map id | id in cases && Survivor(cases, id) != id :: Survivor(cases, id)
  }

  predicate HasDuplicates(cases: Cases) {
    exists i, j :: i in cases && j in cases && i != j && Identity(cases[i]) == Identity(cases[j])
  }

  predicate HasNonObject(cases: Cases) {
    exists i :: i in cases && cases[i].evidence.JOther?
  }

  // ----- The merge -----

  const LEGACY_KEY := "legacy_evidence"

  /** Scalars and arrays are kept under a named key. */
  function Normalized(cases: Cases): Cases {
    map id | id in cases ::
      if cases[id].evidence.JOther? then cases[id].(evidence := JObject(map[LEGACY_KEY := cases[id].evidence])) else cases[id]
  }

  function FieldsOf(j: Json): map<string, Json> {
    if j.JObject? then j.fields else map[]
  }

  function EvidenceKeys(cases: Cases, group: set<nat>): set<string> {
    set i, k | i in group && i in cases && k in FieldsOf(cases[i].evidence).Keys :: k
  }

  function Holding(cases: Cases, group: set<nat>, k: string): set<nat> {
    set i | i in group && i in cases && k in FieldsOf(cases[i].evidence)
  }

  /** Per key the value of the newest case holding it: a union of keys, not of values. */
  function MergedEvidence(cases: Cases, group: set<nat>): map<string, Json> {
    map k | k in EvidenceKeys(cases, group) ::
      assert Holding(cases, group, k) != {} by {
        var i :| i in group && i in cases && k in FieldsOf(cases[i].evidence);
        assert i in Holding(cases, group, k);
      }
      FieldsOf(cases[Pick(cases, Holding(cases, group, k), IdOnly, true)].evidence)[k]
  }

  function Dismissals(cases: Cases, group: set<nat>): set<nat> {
    set i | i in group && i in cases && cases[i].stage == Dismissed && cases[i].dismissedReason.Some?
  }

  /** The survivor with every semantic column merged over its group. */
  function MergedCase(cases: Cases, keep: nat): CaseRow
    requires keep in cases
  {
    var group := Group(cases, keep);
    assert keep in group;
    var first := cases[Pick(cases, group, FirstFundedAt, false)];
    var stage := cases[Pick(cases, group, StageColumn, true)].stage;
    var dismissals := Dismissals(cases, group);
    cases[keep].(
      firstFundedAt := first.firstFundedAt,
      firstFundingUsd := first.firstFundingUsd,
      firstFundingNative := first.firstFundingNative,
      sourceAddress := first.sourceAddress,
      sourceKind := first.sourceKind,
      confidence := cases[Pick(cases, group, Confidence, true)].confidence,
      fanoutCount := cases[Pick(cases, group, FanoutCount, true)].fanoutCount,
      updatedAt := cases[Pick(cases, group, UpdatedAt, true)].updatedAt,
      deployWindowEndsAt := cases[Pick(cases, group, DeployWindow, true)].deployWindowEndsAt,
      stage := stage,
      evidence := JObject(MergedEvidence(cases, group)),
      dismissedReason :=
        if stage == Dismissed && dismissals != {} then cases[Pick(cases, dismissals, UpdatedAt, true)].dismissedReason
        else None)
  }

  /** The update statement touches only the survivors of real groups. */
  function WithMerged(cases: Cases): Cases {
    map id | id in cases :: if id in MergeMap(cases).Values then MergedCase(cases, id) else cases[id]
  }

  function WithoutDead(cases: Cases, dead: set<nat>): Cases {
    map id | id in cases && id !in dead :: cases[id]
  }

  /** The committed cases. */
  function Merged(cases: Cases): Cases {
    WithoutDead(WithMerged(cases), MergeMap(cases).Keys)
  }

  function RepointedEvents(events: Events, merge: map<nat, nat>): Events {
    map id | id in events ::
      if events[id].caseId in merge then events[id].(caseId := merge[events[id].caseId]) else events[id]
  }

  // ----- Evidence, whatever its form -----

  /** A value the case holds under a key; evidence that is no object is held whole, under its own name. */
  ghost predicate HoldsValue(c: CaseRow, k: string, v: Json) {
    match c.evidence
    case JObject(fields) => k in fields && fields[k] == v
    case JOther(_) => k == "legacy_evidence" && v == c.evidence
  }

  /** The value under `k` of the newest case of the group that has one. */
  ghost predicate NewestValue(cases: Cases, group: set<nat>, k: string, v: Json) {
    exists i :: i in group && i in cases && HoldsValue(cases[i], k, v) &&
                forall j, w | j in group && j in cases && HoldsValue(cases[j], k, w) :: j <= i
  }

  lemma NormalizingKeepsValues(cases: Cases)
    ensures forall i | i in cases ::
              && i in Normalized(cases) && Normalized(cases)[i].evidence.JObject?
              && Normalized(cases)[i] == cases[i].(evidence := Normalized(cases)[i].evidence)
    ensures forall i, k, v | i in cases :: HoldsValue(Normalized(cases)[i], k, v) <==> HoldsValue(cases[i], k, v)
  {
  }

  // ----- Survivors -----

  lemma SurvivorIsShared(cases: Cases, i: nat, j: nat)
    requires i in cases && j in cases
    ensures Survivor(cases, i) == Survivor(cases, j) <==> Identity(cases[i]) == Identity(cases[j])
    ensures Survivor(cases, Survivor(cases, i)) == Survivor(cases, i)
  {
    if Identity(cases[i]) == Identity(cases[j]) {
      assert Group(cases, i) == Group(cases, j);
    }
    assert Group(cases, Survivor(cases, i)) == Group(cases, i);
  }

  lemma SurvivorsAreAlive(cases: Cases)
    ensures forall id | id in MergeMap(cases) :: MergeMap(cases)[id] in cases && MergeMap(cases)[id] !in MergeMap(cases)
    ensures MergeMap(cases) == map[] <==> !HasDuplicates(cases)
  {
    forall id | id in MergeMap(cases)
      ensures MergeMap(cases)[id] in cases && MergeMap(cases)[id] !in MergeMap(cases)
    {
      SurvivorIsShared(cases, id, id);
    }
    if MergeMap(cases) != map[] {
      var id :| id in MergeMap(cases);
      assert Identity(cases[Survivor(cases, id)]) == Identity(cases[id]);
    }
    if HasDuplicates(cases) {
      var i, j :| i in cases && j in cases && i != j && Identity(cases[i]) == Identity(cases[j]);
      SurvivorIsShared(cases, i, j);
      assert i in MergeMap(cases) || j in MergeMap(cases);
    }
  }

  /** Exactly one case is left for every workspace, chain and recipient, and it belongs to them. */
  lemma OneCasePerRecipient(cases: Cases)
    ensures forall i, j | i in Merged(cases) && j in Merged(cases) ::
              var c, d := Merged(cases)[i], Merged(cases)[j];
              c.workspace == d.workspace && c.chain == d.chain && c.recipient == d.recipient ==> i == j
    ensures forall i | i in cases ::
              && Survivor(cases, i) <= i && Survivor(cases, i) in Merged(cases)
              && var c := Merged(cases)[Survivor(cases, i)];
                 c.workspace == cases[i].workspace && c.chain == cases[i].chain && c.recipient == cases[i].recipient
  {
    hide Merged, Survivor;
    OneCasePerIdentity(cases);
    forall i | i in cases
      ensures Survivor(cases, i) <= i
    {
      assert i in Group(cases, i);
    }
  }

  /** Exactly the lowest id of every identity is left. */
  lemma OneCasePerIdentity(cases: Cases)
    ensures var after := Merged(cases);
            && (forall id :: id in after <==> id in cases && Survivor(cases, id) == id)
            && (forall id | id in after :: Identity(after[id]) == Identity(cases[id]))
            && (forall i, j | i in after && j in after && Identity(after[i]) == Identity(after[j]) :: i == j)
            && (forall id | id in cases :: Survivor(cases, id) in after && Identity(after[Survivor(cases, id)]) == Identity(cases[id]))
  {
    hide MergedEvidence, Dismissals, Pick;
    var after := Merged(cases);
    assert forall id :: id in after <==> id in cases && Survivor(cases, id) == id;
    assert forall id | id in after :: Identity(after[id]) == Identity(cases[id]);
    forall i, j | i in after && j in after && Identity(after[i]) == Identity(after[j])
      ensures i == j
    {
      SurvivorIsShared(cases, i, j);
    }
    forall id | id in cases
      ensures Survivor(cases, id) in after && Identity(after[Survivor(cases, id)]) == Identity(cases[id])
    {
      SurvivorIsShared(cases, id, id);
    }
  }

  // ----- No field regresses -----

  /** The columns of the merged row other than the evidence, against a row it absorbed. */
  ghost predicate Covers(m: CaseRow, c: CaseRow) {
    && m.firstFundedAt <= c.firstFundedAt && m.confidence >= c.confidence && m.fanoutCount >= c.fanoutCount
    && m.updatedAt >= c.updatedAt && m.deployWindowEndsAt >= c.deployWindowEndsAt
  }

  ghost predicate SomeIn(cases: Cases, group: set<nat>, stage: Stage) {
    exists i :: i in group && i in cases && cases[i].stage == stage
  }

  /** The most advanced stage of the group; a dismissal outranks everything. */
  ghost predicate StageFits(m: CaseRow, cases: Cases, group: set<nat>) {
    m.stage == if SomeIn(cases, group, Dismissed) then Dismissed
               else if SomeIn(cases, group, Deployed) then Deployed
               else if SomeIn(cases, group, Preparation) then Preparation
               else Funded
  }

  /** The row funded first, the lower id winning a tie. */
  ghost predicate FundedFirst(cases: Cases, group: set<nat>, i: nat)
    requires i in cases
  {
    forall j | j in group && j in cases ::
      cases[i].firstFundedAt < cases[j].firstFundedAt || (cases[i].firstFundedAt == cases[j].firstFundedAt && i <= j)
  }

  /** Every merged value is some absorbed row's own, and the first-funding facts are those of the row funded first. */
  ghost predicate Attained(m: CaseRow, cases: Cases, group: set<nat>) {
    && (exists i :: i in group && i in cases && SameFirstFunding(m, cases[i]) && FundedFirst(cases, group, i))
    && (exists i :: i in group && i in cases && m.confidence == cases[i].confidence)
    && (exists i :: i in group && i in cases && m.fanoutCount == cases[i].fanoutCount)
    && (exists i :: i in group && i in cases && m.updatedAt == cases[i].updatedAt)
    && (exists i :: i in group && i in cases && m.deployWindowEndsAt == cases[i].deployWindowEndsAt)
    && StageFits(m, cases, group)
  }

  /** Evidence keys are the union over the group, each with the value of its newest holder. */
  ghost predicate EvidenceFits(m: CaseRow, cases: Cases, group: set<nat>) {
    && m.evidence.JObject?
    && (forall k :: k in m.evidence.fields <==> exists i :: i in group && i in cases && k in FieldsOf(cases[i].evidence))
    && (forall k | k in m.evidence.fields :: exists i :: i in group && i in cases && NewestHolder(cases, group, i, k, m.evidence.fields[k]))
  }

  ghost predicate SameFirstFunding(m: CaseRow, c: CaseRow) {
    && m.firstFundedAt == c.firstFundedAt && m.firstFundingUsd == c.firstFundingUsd
    && m.firstFundingNative == c.firstFundingNative && m.sourceAddress == c.sourceAddress && m.sourceKind == c.sourceKind
  }

  /** Only a dismissed result keeps a reason, that of the dismissal updated last, the higher id winning a tie. */
  ghost predicate ReasonFits(m: CaseRow, cases: Cases, group: set<nat>) {
    var dismissals := Dismissals(cases, group);
    if m.stage == Dismissed && dismissals != {}
    then exists i :: i in dismissals && m.dismissedReason == cases[i].dismissedReason &&
                     forall j | j in dismissals ::
                       cases[j].updatedAt < cases[i].updatedAt || (cases[j].updatedAt == cases[i].updatedAt && j <= i)
    else m.dismissedReason.None?
  }

  ghost predicate NewestHolder(cases: Cases, group: set<nat>, i: nat, k: string, value: Json)
    requires i in cases
  {
    && k in FieldsOf(cases[i].evidence) && FieldsOf(cases[i].evidence)[k] == value
    && forall j | j in group && j in cases && k in FieldsOf(cases[j].evidence) :: j <= i
  }

  lemma MergedEvidenceIsUnion(cases: Cases, group: set<nat>)
    requires group <= cases.Keys
    ensures forall k :: k in MergedEvidence(cases, group) <==> exists i :: i in group && k in FieldsOf(cases[i].evidence)
    ensures forall k | k in MergedEvidence(cases, group) ::
              exists i :: i in group && i in cases && NewestHolder(cases, group, i, k, MergedEvidence(cases, group)[k])
  {
    forall k | k in MergedEvidence(cases, group)
      ensures exists i :: i in group && i in cases && NewestHolder(cases, group, i, k, MergedEvidence(cases, group)[k])
    {
      var holding := Holding(cases, group, k);
      var i := Pick(cases, holding, IdOnly, true);
      forall j | j in group && j in cases && k in FieldsOf(cases[j].evidence)
        ensures j <= i
      {
        assert j in holding;
        assert Precedes(cases, IdOnly, true, i, j);
      }
      assert NewestHolder(cases, group, i, k, MergedEvidence(cases, group)[k]);
    }
  }

  lemma MergedReasonFits(cases: Cases, keep: nat)
    requires keep in cases
    ensures ReasonFits(MergedCase(cases, keep), cases, Group(cases, keep))
  {
    hide MergedEvidence;
    var group, m := Group(cases, keep), MergedCase(cases, keep);
    var dismissals := Dismissals(cases, group);
    if m.stage == Dismissed && dismissals != {} {
      var last := Pick(cases, dismissals, UpdatedAt, true);
      forall j | j in dismissals
        ensures cases[j].updatedAt < cases[last].updatedAt || (cases[j].updatedAt == cases[last].updatedAt && j <= last)
      {
        assert Precedes(cases, UpdatedAt, true, last, j);
      }
      assert last in dismissals && m.dismissedReason == cases[last].dismissedReason;
    }
  }

  lemma MergedStageFits(cases: Cases, keep: nat)
    requires keep in cases
    ensures StageFits(MergedCase(cases, keep), cases, Group(cases, keep))
  {
    hide MergedEvidence, Dismissals;
    var group := Group(cases, keep);
    assert keep in group && group <= cases.Keys;
    var stage := Pick(cases, group, StageColumn, true);
    forall i | i in group
      ensures StageRank(cases[i].stage) <= StageRank(cases[stage].stage)
    {
      assert Precedes(cases, StageColumn, true, stage, i);
    }
    assert SomeIn(cases, group, cases[stage].stage);
  }

  /** No merged column falls behind any row of the group, and nothing is made up. */
  lemma MergeLosesNothing(cases: Cases, keep: nat)
    requires keep in cases
    ensures var group, m := Group(cases, keep), MergedCase(cases, keep);
            && Identity(m) == Identity(cases[keep])
            && (forall i | i in group :: Covers(m, cases[i]))
            && Attained(m, cases, group)
            && EvidenceFits(m, cases, group)
            && ReasonFits(m, cases, group)
  {
    hide MergedEvidence, ReasonFits, StageFits, NewestHolder;
    var group, m := Group(cases, keep), MergedCase(cases, keep);
    assert keep in group && group <= cases.Keys;
    MergedEvidenceIsUnion(cases, group);
    var first := Pick(cases, group, FirstFundedAt, false);
    assert SameFirstFunding(m, cases[first]);
    assert FundedFirst(cases, group, first) by {
      forall j | j in group && j in cases
        ensures cases[first].firstFundedAt < cases[j].firstFundedAt || (cases[first].firstFundedAt == cases[j].firstFundedAt && first <= j)
      {
        assert Precedes(cases, FirstFundedAt, false, first, j);
      }
    }
    MergedStageFits(cases, keep);
    var confidence := Pick(cases, group, Confidence, true);
    var fanout := Pick(cases, group, FanoutCount, true);
    var updated := Pick(cases, group, UpdatedAt, true);
    var window := Pick(cases, group, DeployWindow, true);
    assert m.confidence == cases[confidence].confidence && m.fanoutCount == cases[fanout].fanoutCount;
    assert m.updatedAt == cases[updated].updatedAt && m.deployWindowEndsAt == cases[window].deployWindowEndsAt;
    MergedReasonFits(cases, keep);
    forall i | i in group
      ensures Covers(m, cases[i])
    {
      assert Precedes(cases, FirstFundedAt, false, first, i);
      assert Precedes(cases, Confidence, true, confidence, i);
      assert Precedes(cases, FanoutCount, true, fanout, i);
      assert Precedes(cases, UpdatedAt, true, updated, i);
      assert Precedes(cases, DeployWindow, true, window, i);
    }
  }
}
