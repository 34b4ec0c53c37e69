/** Funding radar cases (src/funding_radar.rs): ingestion, evaluation and the case lifecycle. */
module FundingRadar {
  import opened Util

  datatype Commitment = Processed | Confirmed | Finalized
  datatype AssetKind = Native | SplToken | Erc20
  datatype Stage = Funded | Preparation | Deployed | Dismissed

  datatype Config = Config(
    largeFundingMinSol: nat, largeFundingMinUsd: nat, percentileFloorSol: nat, recipientMaxAgeDays: nat,
    preparationWindowDays: nat, fanoutThreshold: nat, preparationEvidenceRequired: nat, preparationAlertConfidence: nat)

  datatype FundingEvent = FundingEvent(
    chain: string, signature: string, observedAt: int, commitment: Commitment, fromAddress: string, toAddress: string,
    assetKind: AssetKind, mint: string, nativeAmount: real, amountUsd: Option<real>,
    recipientAgeSeconds: Option<int>, infrastructureSource: bool)

  /** The identity the unique index enforces. */
  datatype CaseKey = CaseKey(workspace: int, chain: string, recipient: string)

  datatype Case = Case(
    id: nat, firstFundedAt: int, firstFundingUsd: Option<real>, firstFundingNative: real, sourceAddress: string,
    fanoutCount: nat, deployWindowEndsAt: int, stage: Stage, confidence: nat, dismissedReason: Option<string>)

  datatype CaseEvent = CaseEvent(caseId: nat, kind: string, observedAt: int, infrastructure: bool)

  datatype ObservationKey = ObservationKey(
    chain: string, signature: string, fromAddress: string, toAddress: string, assetKind: AssetKind, mint: string)

  /** `lastId` is the last case id drawn; a failed insert draws one too. */
  datatype Radar = Radar(cases: map<CaseKey, Case>, events: seq<CaseEvent>, observations: set<ObservationKey>, lastId: nat)

  const EMPTY := Radar(map[], [], {}, 0)
  const DAY := 86400
  const EXPIRED := "expired window without preparation evidence"

  // ----- Ingestion -----

  predicate QualifiesAsLargeFunding(e: FundingEvent, config: Config, percentile: Option<real>) {
    var usdOk := e.amountUsd.Some? && e.amountUsd.value >= config.largeFundingMinUsd as real;
    match e.assetKind
    case Native =>
      || (e.nativeAmount >= config.largeFundingMinSol as real && usdOk)
      || (percentile.Some? && e.nativeAmount >= percentile.value && e.nativeAmount >= config.percentileFloorSol as real)
    case _ => usdOk
  }

  predicate RecipientIsFresh(e: FundingEvent, config: Config) {
    e.recipientAgeSeconds.Some? && 0 <= e.recipientAgeSeconds.value <= config.recipientMaxAgeDays * DAY
  }

  /** The event opens or extends a case. */
  predicate Counts(e: FundingEvent, config: Config, percentile: Option<real>) {
    e.commitment != Processed && RecipientIsFresh(e, config) && QualifiesAsLargeFunding(e, config, percentile)
  }

  function KeyOf(workspace: int, e: FundingEvent): CaseKey {
    CaseKey(workspace, e.chain, e.toAddress)
  }

  function Observed(e: FundingEvent): ObservationKey {
    ObservationKey(e.chain, e.signature, e.fromAddress, e.toAddress, e.assetKind, e.mint)
  }

  function OpenedCase(id: nat, e: FundingEvent, config: Config): Case {
    Case(id, e.observedAt, e.amountUsd, e.nativeAmount, e.fromAddress, 0,
         e.observedAt + config.preparationWindowDays * DAY, Funded, if e.infrastructureSource then 40 else 55, None)
  }

  datatype IngestError = DuplicateCase

  /** `freshChildren` is what the fan-out count over other tables answers. */
  function Ingested(r: Radar, workspace: int, e: FundingEvent, config: Config, percentile: Option<real>, freshChildren: nat)
    : (Radar, Result<Option<Case>, IngestError>)
  {
    var key, stored := KeyOf(workspace, e), r.(observations := r.observations + {Observed(e)});
    if !Counts(e, config, percentile) then
      (stored, Success(if key in r.cases then Some(r.cases[key]) else None))
    else if key !in r.cases then
      var c := OpenedCase(r.lastId + 1, e, config);
      (stored.(cases := r.cases[key := c], lastId := r.lastId + 1,
               events := r.events + [CaseEvent(c.id, "first_funding", e.observedAt, e.infrastructureSource)]),
       Success(Some(c)))
    else if r.cases[key].stage == Dismissed then
      (stored.(lastId := r.lastId + 1), Failure(DuplicateCase))
    else
      var c := r.cases[key].(fanoutCount := freshChildren);
      (stored.(cases := r.cases[key := c],
               events := r.events + [CaseEvent(c.id, "additional_funding", e.observedAt, e.infrastructureSource)]),
       Success(Some(c)))
  }

  // ----- Evaluation -----

  /** The evidence rows of a case observed by `now`. */
  predicate IsEvidence(e: CaseEvent, caseId: nat, now: int) {
    e.caseId == caseId && e.observedAt <= now
  }

  function Kinds(events: seq<CaseEvent>, caseId: nat, now: int): set<string> {
    set e | e in events && IsEvidence(e, caseId, now) :: e.kind
  }

  predicate HasNonInfrastructure(events: seq<CaseEvent>, caseId: nat, now: int) {
    exists e :: e in events && IsEvidence(e, caseId, now) && !e.infrastructure
  }

  function PreparationConfidence(fanoutCount: nat, kinds: set<string>, config: Config): nat {
    var total := 55 +
      (if "fanout" in kinds then 15 else 0) +
      (if "token_creation" in kinds || "account_creation" in kinds then 10 else 0) +
      (if "launchpad_interaction" in kinds || "dex_interaction" in kinds then 10 else 0) +
      (if "telegram_mention" in kinds || "gmgn_mention" in kinds then 5 else 0) +
      (if fanoutCount >= config.fanoutThreshold then 5 else 0);
    if total > 95 then 95 else total
  }

  datatype Decision = Decision(stage: Stage, previous: Option<Stage>, confidence: nat, alert: bool)

  /** What one evaluation makes of a case, and whether it emits the preparation alert. */
  function EvaluatedCase(c: Case, events: seq<CaseEvent>, now: int, config: Config): (Case, bool) {
    var kinds := Kinds(events, c.id, now);
    if c.stage == Dismissed || c.stage == Deployed then (c, false)
    else if now > c.deployWindowEndsAt && c.stage == Funded then
      (c.(stage := Dismissed, dismissedReason := Some(EXPIRED)), false)
    else if "deployment" in kinds then (c.(stage := Deployed, confidence := 85), false)
    else if |kinds| >= config.preparationEvidenceRequired && HasNonInfrastructure(events, c.id, now) && c.stage == Funded then
      var confidence := PreparationConfidence(c.fanoutCount, kinds, config);
      (c.(stage := Preparation, confidence := confidence), confidence >= config.preparationAlertConfidence)
    else (c, false)
  }

  function Evaluated(r: Radar, key: CaseKey, now: int, config: Config): (Radar, Decision) {
    if key !in r.cases then (r, Decision(Funded, None, 0, false))
    else
      var (c, alert) := EvaluatedCase(r.cases[key], r.events, now, config);
      (r.(cases := r.cases[key := c]), Decision(c.stage, Some(r.cases[key].stage), c.confidence, alert))
  }

  class RadarStore {
    var cases: map<CaseKey, Case>
    var events: seq<CaseEvent>
    var observations: set<ObservationKey>
    var lastId: nat

    ghost function State(): Radar
      reads this
    {
      Radar(cases, events, observations, lastId)
    }

    constructor ()
      ensures State() == EMPTY
    {
      cases, events, observations, lastId := map[], [], {}, 0;
    }

    method IngestFundingEvent(workspace: int, e: FundingEvent, config: Config, percentile: Option<real>, freshChildren: nat)
      returns (answer: Result<Option<Case>, IngestError>)
      modifies this
      ensures (State(), answer) == Ingested(old(State()), workspace, e, config, percentile, freshChildren)
    {
      var key := KeyOf(workspace, e);
      observations := observations + {Observed(e)};
      var existing := if key in cases then Some(cases[key]) else None;
      if e.commitment == Processed {
        return Success(existing);
      }
      if !RecipientIsFresh(e, config) {
        return Success(existing);
      }
      if !QualifiesAsLargeFunding(e, config, percentile) {
        return Success(existing);
      }
      if existing.Some? && existing.value.stage != Dismissed {
        var c := existing.value;
        events := events + [CaseEvent(c.id, "additional_funding", e.observedAt, e.infrastructureSource)];
        cases := cases[key := c.(fanoutCount := freshChildren)];
        return Success(Some(cases[key]));
      }
      lastId := lastId + 1;
      if key in cases {
        return Failure(DuplicateCase);
      }
      var c := OpenedCase(lastId, e, config);
      cases := cases[key := c];
      events := events + [CaseEvent(c.id, "first_funding", e.observedAt, e.infrastructureSource)];
      answer := Success(Some(c));
    }

    method RecordCaseEvidence(caseId: nat, kind: string, observedAt: int, infrastructure: bool) returns (stored: bool)
      modifies this`events
      ensures State() == WithEvidence(old(State()), CaseEvent(caseId, kind, observedAt, infrastructure))
      ensures stored <==> exists key :: key in cases && cases[key].id == caseId
      ensures events == if stored then old(events) + [CaseEvent(caseId, kind, observedAt, infrastructure)] else old(events)
    {
      stored := exists key :: key in cases && cases[key].id == caseId;
      if stored {
        events := events + [CaseEvent(caseId, kind, observedAt, infrastructure)];
      }
    }

    method CollectKinds(caseId: nat, now: int) returns (kinds: set<string>, nonInfrastructure: bool)
      ensures kinds == Kinds(events, caseId, now)
      ensures nonInfrastructure == HasNonInfrastructure(events, caseId, now)
    {
      kinds, nonInfrastructure := {}, false;
      for i := 0 to |events|
        invariant kinds == Kinds(events[..i], caseId, now)
        invariant nonInfrastructure == HasNonInfrastructure(events[..i], caseId, now)
      {
        assert events[..i + 1] == events[..i] + [events[i]];
        if IsEvidence(events[i], caseId, now) {
          kinds := kinds + {events[i].kind};
          if !events[i].infrastructure {
            nonInfrastructure := true;
          }
        }
      }
      assert events[..|events|] == events;
    }

    method ScorePreparation(fanoutCount: nat, kinds: set<string>, config: Config) returns (confidence: nat)
      ensures confidence == PreparationConfidence(fanoutCount, kinds, config)
    {
      confidence := 55;
      if "fanout" in kinds { confidence := confidence + 15; }
      if "token_creation" in kinds || "account_creation" in kinds { confidence := confidence + 10; }
      if "launchpad_interaction" in kinds || "dex_interaction" in kinds { confidence := confidence + 10; }
      if "telegram_mention" in kinds || "gmgn_mention" in kinds { confidence := confidence + 5; }
      if fanoutCount >= config.fanoutThreshold { confidence := confidence + 5; }
      if confidence > 95 { confidence := 95; }
    }

    method EvaluateRadarCase(key: CaseKey, now: int, config: Config) returns (decision: Decision)
      modifies this`cases
      ensures (State(), decision) == Evaluated(old(State()), key, now, config)
    {
      if key !in cases {
        return Decision(Funded, None, 0, false);
      }
      var c := cases[key];
      var previous := Some(c.stage);
      if c.stage == Dismissed || c.stage == Deployed {
        assert cases[key := c] == cases;
        return Decision(c.stage, previous, c.confidence, false);
      }
      if now > c.deployWindowEndsAt && c.stage == Funded {
        cases := cases[key := c.(stage := Dismissed, dismissedReason := Some(EXPIRED))];
        return Decision(Dismissed, previous, c.confidence, false);
      }
      var kinds, nonInfrastructure := CollectKinds(c.id, now);
      if "deployment" in kinds {
        cases := cases[key := c.(stage := Deployed, confidence := 85)];
        return Decision(Deployed, previous, 85, false);
      }
      if |kinds| >= config.preparationEvidenceRequired && nonInfrastructure && c.stage == Funded {
        var confidence := ScorePreparation(c.fanoutCount, kinds, config);
        cases := cases[key := c.(stage := Preparation, confidence := confidence)];
        return Decision(Preparation, previous, confidence, confidence >= config.preparationAlertConfidence);
      }
      assert cases[key := c] == cases;
      decision := Decision(c.stage, previous, c.confidence, false);
    }
  }

  /** Evidence for a case that does not exist is refused by the foreign key. */
  function WithEvidence(r: Radar, e: CaseEvent): Radar {
    if exists key :: key in r.cases && r.cases[key].id == e.caseId then r.(events := r.events + [e]) else r
  }

  // ----- Runs -----

  datatype Step =
    | Ingest(workspace: int, event: FundingEvent, percentile: Option<real>, freshChildren: nat)
    | Evidence(caseEvent: CaseEvent)
    | Evaluate(key: CaseKey, now: int)

  function Next(r: Radar, step: Step, config: Config): Radar {
    match step
    case Ingest(workspace, e, percentile, children) => Ingested(r, workspace, e, config, percentile, children).0
    case Evidence(e) => WithEvidence(r, e)
    case Evaluate(key, now) => Evaluated(r, key, now, config).0
  }

  function Alerts(r: Radar, step: Step, key: CaseKey, config: Config): nat {
    if step.Evaluate? && step.key == key && Evaluated(r, key, step.now, config).1.alert then 1 else 0
  }

  function Run(r: Radar, steps: seq<Step>, config: Config): Radar {
    if steps == [] then r else Next(Run(r, steps[..|steps| - 1], config), steps[|steps| - 1], config)
  }

  function AlertCount(r: Radar, steps: seq<Step>, key: CaseKey, config: Config): nat {
    if steps == [] then 0
    else AlertCount(r, steps[..|steps| - 1], key, config) +
         Alerts(Run(r, steps[..|steps| - 1], config), steps[|steps| - 1], key, config)
  }

  /** The stages a case may be in later. */
  predicate Reaches(from: Stage, to: Stage) {
    match from
    case Funded => true
    case Preparation => to == Preparation || to == Deployed
    case Deployed => to == Deployed
    case Dismissed => to == Dismissed
  }

  /** The stages one step may lead to. */
  predicate StepsTo(from: Stage, to: Stage) {
    from == to || (from == Funded && to != Funded) || (from == Preparation && to == Deployed)
  }

  /** The facts recorded when a case was opened. */
  predicate SameOrigin(a: Case, b: Case) {
    && a.id == b.id && a.firstFundedAt == b.firstFundedAt && a.firstFundingUsd == b.firstFundingUsd
    && a.firstFundingNative == b.firstFundingNative && a.sourceAddress == b.sourceAddress
    && a.deployWindowEndsAt == b.deployWindowEndsAt
  }

  ghost predicate Sound(r: Radar) {
    && (forall k | k in r.cases :: 1 <= r.cases[k].id <= r.lastId)
    && (forall k, l | k in r.cases && l in r.cases && r.cases[k].id == r.cases[l].id :: k == l)
    && (forall e | e in r.events :: exists k :: k in r.cases && r.cases[k].id == e.caseId)
    && (forall k | k in r.cases && r.cases[k].stage == Preparation :: 55 <= r.cases[k].confidence <= 95)
    && (forall k | k in r.cases && r.cases[k].stage == Dismissed :: r.cases[k].dismissedReason == Some(EXPIRED))
  }

  /** What one step leaves of the state before it. */
  ghost predicate Keeps(r: Radar, s: Radar) {
    && r.events <= s.events && r.observations <= s.observations
    && forall k | k in r.cases ::
         && k in s.cases && SameOrigin(r.cases[k], s.cases[k]) && StepsTo(r.cases[k].stage, s.cases[k].stage)
         && (r.cases[k].stage == Deployed || r.cases[k].stage == Dismissed ==> r.cases[k].confidence == s.cases[k].confidence)
  }

  lemma StepKeeps(r: Radar, step: Step, config: Config)
    ensures Keeps(r, Next(r, step, config))
  {
  }

  ghost predicate GoodCase(c: Case) {
    && (c.stage == Preparation ==> 55 <= c.confidence <= 95)
    && (c.stage == Dismissed ==> c.dismissedReason == Some(EXPIRED))
  }

  /** Rewriting one case in place, with or without a new event of its own. */
  lemma UpdateKeepsSound(r: Radar, s: Radar, key: CaseKey, c: Case)
    requires Sound(r) && key in r.cases && c.id == r.cases[key].id && GoodCase(c)
    requires s.cases == r.cases[key := c] && s.lastId >= r.lastId
    requires s.events == r.events || (|s.events| > 0 && s.events == r.events + [s.events[|s.events| - 1]] && s.events[|s.events| - 1].caseId == c.id)
    ensures Sound(s)
  {
    forall e | e in s.events
      ensures exists k :: k in s.cases && s.cases[k].id == e.caseId
    {
      if e in r.events {
        var k :| k in r.cases && r.cases[k].id == e.caseId;
        assert k in s.cases && s.cases[k].id == e.caseId;
      } else {
        assert key in s.cases && s.cases[key].id == e.caseId;
      }
    }
  }

  /** Opening a case under an id never used before. */
  lemma OpeningKeepsSound(r: Radar, s: Radar, key: CaseKey, c: Case, first: CaseEvent)
    requires Sound(r) && key !in r.cases && c.id == r.lastId + 1 == s.lastId && c.stage == Funded
    requires s.cases == r.cases[key := c] && s.events == r.events + [first] && first.caseId == c.id
    ensures Sound(s)
  {
    forall e | e in s.events
      ensures exists k :: k in s.cases && s.cases[k].id == e.caseId
    {
      if e in r.events {
        var k :| k in r.cases && r.cases[k].id == e.caseId;
        assert k in s.cases && s.cases[k].id == e.caseId;
      } else {
        assert key in s.cases && s.cases[key].id == e.caseId;
      }
    }
  }

  lemma EvaluatedIsGood(c: Case, events: seq<CaseEvent>, now: int, config: Config)
    requires GoodCase(c)
    ensures GoodCase(EvaluatedCase(c, events, now, config).0) && EvaluatedCase(c, events, now, config).0.id == c.id
  {
  }

  lemma StepKeepsSound(r: Radar, step: Step, config: Config)
    requires Sound(r)
    ensures Sound(Next(r, step, config))
  {
    hide EvaluatedCase, Counts;
    var s := Next(r, step, config);
    match step
    case Ingest(workspace, e, percentile, children) =>
      var key := KeyOf(workspace, e);
      if Counts(e, config, percentile) && key !in r.cases {
        OpeningKeepsSound(r, s, key, s.cases[key], s.events[|r.events|]);
      } else if Counts(e, config, percentile) && r.cases[key].stage != Dismissed {
        UpdateKeepsSound(r, s, key, s.cases[key]);
      }
    case Evidence(e) =>
      if s != r {
        var key :| key in r.cases && r.cases[key].id == e.caseId;
        assert r.cases[key := r.cases[key]] == r.cases;
        UpdateKeepsSound(r, s, key, r.cases[key]);
      }
    case Evaluate(key, now) =>
      if key in r.cases {
        EvaluatedIsGood(r.cases[key], r.events, now, config);
        UpdateKeepsSound(r, s, key, s.cases[key]);
      }
  }

  // ----- Main results -----

  /** Over every run cases keep their origin and only move forward, and evidence is never lost. */
  lemma {:induction false} LifecycleHolds(steps: seq<Step>, i: nat, config: Config)
    requires i <= |steps|
    ensures var early, late := Run(EMPTY, steps[..i], config), Run(EMPTY, steps, config);
            && Sound(late) && early.events <= late.events && early.observations <= late.observations
            && forall k | k in early.cases ::
                 && k in late.cases && SameOrigin(early.cases[k], late.cases[k])
                 && Reaches(early.cases[k].stage, late.cases[k].stage)
    decreases |steps|
  {
    hide Next;
    if i == |steps| {
      assert steps[..i] == steps;
      if steps != [] {
        LifecycleHolds(steps[..|steps| - 1], 0, config);
        StepKeepsSound(Run(EMPTY, steps[..|steps| - 1], config), steps[|steps| - 1], config);
      }
    } else {
      var before := steps[..|steps| - 1];
      assert before[..i] == steps[..i];
      LifecycleHolds(before, i, config);
      StepKeeps(Run(EMPTY, before, config), steps[|steps| - 1], config);
      StepKeepsSound(Run(EMPTY, before, config), steps[|steps| - 1], config);
    }
  }

  /** The opening event is on record, and fixes the window and the confidence of a case never promoted. */
  ghost predicate OriginRecorded(c: Case, events: seq<CaseEvent>, config: Config) {
    && c.deployWindowEndsAt == c.firstFundedAt + config.preparationWindowDays * DAY
    && (c.stage == Deployed ==> c.confidence == 85)
    && exists e :: e in events && Opens(e, c)
  }

  ghost predicate Opens(e: CaseEvent, c: Case) {
    && e.caseId == c.id && e.kind == "first_funding" && e.observedAt == c.firstFundedAt
    && (c.stage == Funded || c.stage == Dismissed ==> c.confidence == if e.infrastructure then 40 else 55)
  }

  ghost predicate OriginsRecorded(r: Radar, config: Config) {
    forall k | k in r.cases :: OriginRecorded(r.cases[k], r.events, config)
  }

  lemma StepRecordsOrigins(r: Radar, step: Step, config: Config)
    requires OriginsRecorded(r, config)
    ensures OriginsRecorded(Next(r, step, config), config)
  {
    hide Counts, PreparationConfidence, Kinds, HasNonInfrastructure;
    var s := Next(r, step, config);
    forall k | k in s.cases
      ensures OriginRecorded(s.cases[k], s.events, config)
    {
      if k in r.cases {
        var e :| e in r.events && Opens(e, r.cases[k]);
        assert e in s.events && Opens(e, s.cases[k]);
      } else {
        assert Opens(s.events[|r.events|], s.cases[k]);
      }
    }
  }

  /** Over every run each case has its opening event, a window counted from it and, unpromoted, its source's confidence. */
  lemma {:induction false} OriginsAreRecorded(steps: seq<Step>, config: Config)
    ensures OriginsRecorded(Run(EMPTY, steps, config), config)
  {
    if steps != [] {
      hide Next, OriginsRecorded;
      OriginsAreRecorded(steps[..|steps| - 1], config);
      StepRecordsOrigins(Run(EMPTY, steps[..|steps| - 1], config), steps[|steps| - 1], config);
    }
  }

  /** At most one preparation alert is ever emitted for a workspace, chain and recipient. */
  lemma {:induction false} OneAlertPerCase(steps: seq<Step>, key: CaseKey, config: Config)
    ensures AlertCount(EMPTY, steps, key, config) <= 1
    ensures var r := Run(EMPTY, steps, config);
            key !in r.cases || r.cases[key].stage == Funded ==> AlertCount(EMPTY, steps, key, config) == 0
  {
    if steps != [] {
      var before := steps[..|steps| - 1];
      OneAlertPerCase(before, key, config);
      StepKeeps(Run(EMPTY, before, config), steps[|steps| - 1], config);
    }
  }

  // ----- When an alert is emitted -----

  /** Step `j` moves the case to preparation. */
  predicate PromotedAt(steps: seq<Step>, j: nat, key: CaseKey, config: Config) {
    && j < |steps|
    && var before, after := Run(EMPTY, steps[..j], config), Run(EMPTY, steps[..j + 1], config);
       key in before.cases && key in after.cases && before.cases[key].stage == Funded && after.cases[key].stage == Preparation
  }

  /** The case is worth an alert as it stands after step `j`. */
  predicate SureAfter(steps: seq<Step>, j: nat, key: CaseKey, config: Config) {
    && j < |steps| && key in Run(EMPTY, steps[..j + 1], config).cases
    && Run(EMPTY, steps[..j + 1], config).cases[key].confidence >= config.preparationAlertConfidence
  }

  lemma StepAlerts(r: Radar, step: Step, key: CaseKey, config: Config)
    ensures var s := Next(r, step, config);
            Alerts(r, step, key, config) ==
              if key in r.cases && key in s.cases && r.cases[key].stage == Funded && s.cases[key].stage == Preparation
                 && s.cases[key].confidence >= config.preparationAlertConfidence then 1 else 0
  {
    hide Counts, PreparationConfidence, Kinds, HasNonInfrastructure;
  }

  lemma EarlierAlerts(steps: seq<Step>, key: CaseKey, config: Config)
    requires steps != []
    ensures var before := steps[..|steps| - 1];
            forall j: nat | j < |before| ::
              PromotedAt(before, j, key, config) == PromotedAt(steps, j, key, config) &&
              SureAfter(before, j, key, config) == SureAfter(steps, j, key, config)
  {
    var before := steps[..|steps| - 1];
    forall j: nat | j < |before|
      ensures PromotedAt(before, j, key, config) == PromotedAt(steps, j, key, config)
      ensures SureAfter(before, j, key, config) == SureAfter(steps, j, key, config)
    {
      assert before[..j] == steps[..j] && before[..j + 1] == steps[..j + 1];
    }
  }

  /**
    * In every run a case is alerted exactly once when some step promotes it with a confidence at or above
    * the alert threshold, and never otherwise.
    */
  lemma {:induction false} AlertsExactly(steps: seq<Step>, key: CaseKey, config: Config)
    ensures AlertCount(EMPTY, steps, key, config) ==
            if exists j: nat :: PromotedAt(steps, j, key, config) && SureAfter(steps, j, key, config) then 1 else 0
  {
    hide Next, Alerts;
    if steps != [] {
      var n := |steps| - 1;
      var before := steps[..n];
      AlertsExactly(before, key, config);
      OneAlertPerCase(before, key, config);
      var r := Run(EMPTY, before, config);
      StepAlerts(r, steps[n], key, config);
      assert steps[..n + 1] == steps;
      assert Run(EMPTY, steps, config) == Next(r, steps[n], config);
      EarlierAlerts(steps, key, config);
      if Alerts(r, steps[n], key, config) == 1 {
        assert PromotedAt(steps, n, key, config) && SureAfter(steps, n, key, config);
      }
      if j: nat :| PromotedAt(before, j, key, config) && SureAfter(before, j, key, config) {
        assert PromotedAt(steps, j, key, config) && SureAfter(steps, j, key, config);
      }
      if j: nat :| PromotedAt(steps, j, key, config) && SureAfter(steps, j, key, config) {
        assert j < n ==> PromotedAt(before, j, key, config) && SureAfter(before, j, key, config);
      }
    }
  }

  /** The evidence of a case seen by `now`, kind by kind. */
  ghost predicate Seen(r: Radar, id: nat, now: int, kind: string) {
    exists e :: e in r.events && e.caseId == id && e.observedAt <= now && e.kind == kind
  }

  /**
    * One evaluation promotes a funded case exactly when its window is open, no deployment has been seen, the
    * kinds seen are as many as required, and some event seen did not come from infrastructure.
    */
  lemma PromotionIsExact(r: Radar, key: CaseKey, now: int, config: Config, kinds: set<string>)
    requires key in r.cases && r.cases[key].stage == Funded
    requires forall kind :: kind in kinds <==> Seen(r, r.cases[key].id, now, kind)
    ensures var c := r.cases[key];
            Evaluated(r, key, now, config).0.cases[key].stage == Preparation <==>
              && now <= c.deployWindowEndsAt && "deployment" !in kinds && |kinds| >= config.preparationEvidenceRequired
              && exists e :: e in r.events && e.caseId == c.id && e.observedAt <= now && !e.infrastructure
    ensures Evaluated(r, key, now, config).0.cases[key].stage == Preparation ==>
              Evaluated(r, key, now, config).0.cases[key].confidence == PreparationConfidence(r.cases[key].fanoutCount, kinds, config)
  {
    hide PreparationConfidence;
    var seen := Kinds(r.events, r.cases[key].id, now);
    forall kind
      ensures kind in seen <==> kind in kinds
    {
      if kind in seen {
        var e :| e in r.events && IsEvidence(e, r.cases[key].id, now) && e.kind == kind;
      }
    }
    assert seen == kinds;
  }

  /** A decision reports the case as the evaluation left it, its stage before, and no alert for an unknown case. */
  lemma DecisionReportsCase(r: Radar, key: CaseKey, now: int, config: Config)
    ensures var (s, d) := Evaluated(r, key, now, config);
            if key !in r.cases then s == r && d == Decision(Funded, None, 0, false)
            else
              && s == r.(cases := s.cases) && s.cases.Keys == r.cases.Keys && key in s.cases
              && (forall k | k in r.cases && k != key :: s.cases[k] == r.cases[k])
              && d.stage == s.cases[key].stage && d.previous == Some(r.cases[key].stage) && d.confidence == s.cases[key].confidence
  {
    hide EvaluatedCase;
  }

  // ----- Which events open and extend cases -----

  /** Confirmed, to a recipient young enough, and large by amount and value or by percentile; a token by value alone. */
  predicate Earns(e: FundingEvent, config: Config, percentile: Option<real>) {
    && (e.commitment == Confirmed || e.commitment == Finalized)
    && e.recipientAgeSeconds.Some? && e.recipientAgeSeconds.value >= 0
    && e.recipientAgeSeconds.value <= config.recipientMaxAgeDays * 86400
    && if e.assetKind.Native? then
         || (e.amountUsd.Some? && e.amountUsd.value >= config.largeFundingMinUsd as real && e.nativeAmount >= config.largeFundingMinSol as real)
         || (percentile.Some? && e.nativeAmount >= percentile.value && e.nativeAmount >= config.percentileFloorSol as real)
       else e.amountUsd.Some? && e.amountUsd.value >= config.largeFundingMinUsd as real
  }

  /** The step delivers an event that earns its recipient the case `key`. */
  predicate EarnedBy(step: Step, key: CaseKey, config: Config) {
    && step.Ingest? && Earns(step.event, config, step.percentile)
    && step.workspace == key.workspace && step.event.chain == key.chain && step.event.toAddress == key.recipient
  }

  ghost predicate OpenedBy(c: Case, e: FundingEvent) {
    && c.firstFundedAt == e.observedAt && c.firstFundingUsd == e.amountUsd && c.firstFundingNative == e.nativeAmount
    && c.sourceAddress == e.fromAddress
  }

  lemma StepOpens(r: Radar, step: Step, key: CaseKey, config: Config)
    ensures var s := Next(r, step, config);
            && (key in s.cases <==> key in r.cases || EarnedBy(step, key, config))
            && (key !in r.cases && EarnedBy(step, key, config) ==> OpenedBy(s.cases[key], step.event) && s.cases[key].stage == Funded)
  {
    hide EvaluatedCase;
  }

  /** Step `j` is the first that earned `key` its case, and `c` carries its facts. */
  ghost predicate OpenedAt(steps: seq<Step>, j: nat, key: CaseKey, config: Config, c: Case) {
    && j < |steps| && EarnedBy(steps[j], key, config) && OpenedBy(c, steps[j].event)
    && forall i: nat :: i < j ==> !EarnedBy(steps[i], key, config)
  }

  /** In every run a recipient has a case exactly when some event earned it one, with the facts of the first that did. */
  lemma {:induction false} FirstEarningEventOpens(steps: seq<Step>, key: CaseKey, config: Config)
    ensures key in Run(EMPTY, steps, config).cases <==> exists j: nat :: j < |steps| && EarnedBy(steps[j], key, config)
    ensures key in Run(EMPTY, steps, config).cases ==>
              exists j :: OpenedAt(steps, j, key, config, Run(EMPTY, steps, config).cases[key])
  {
    hide Next, Earns;
    if steps != [] {
      var n := |steps| - 1;
      var before := steps[..n];
      FirstEarningEventOpens(before, key, config);
      var r, s := Run(EMPTY, before, config), Run(EMPTY, steps, config);
      assert s == Next(r, steps[n], config);
      StepOpens(r, steps[n], key, config);
      StepKeeps(r, steps[n], config);
      assert forall i: nat :: i < n ==> before[i] == steps[i];
      if key in r.cases {
        var j: nat :| OpenedAt(before, j, key, config, r.cases[key]);
        assert OpenedAt(steps, j, key, config, s.cases[key]);
      } else if EarnedBy(steps[n], key, config) {
        assert OpenedAt(steps, n, key, config, s.cases[key]);
      }
    }
  }

  /**
    * What an event that earns a case does to one that is not dismissed: one piece of evidence more and the
    * fan-out counted anew. Ingestion answers with the case there is afterwards, if any, and fails exactly
    * for an earning event whose case is dismissed.
    */
  lemma IngestAnswers(r: Radar, workspace: int, e: FundingEvent, config: Config, percentile: Option<real>, children: nat)
    ensures var key := CaseKey(workspace, e.chain, e.toAddress);
            var (s, answer) := Ingested(r, workspace, e, config, percentile, children);
            && (answer.Failure? <==> Earns(e, config, percentile) && key in r.cases && r.cases[key].stage == Dismissed)
            && (answer.Failure? ==> s.cases == r.cases && s.events == r.events && s.lastId == r.lastId + 1)
            && (answer.Success? ==> answer.value == if key in s.cases then Some(s.cases[key]) else None)
            && (Earns(e, config, percentile) && key in r.cases && r.cases[key].stage != Dismissed ==>
                  && s.events == r.events + [CaseEvent(r.cases[key].id, "additional_funding", e.observedAt, e.infrastructureSource)]
                  && s.cases == r.cases[key := r.cases[key].(fanoutCount := children)] && s.lastId == r.lastId)
  {
  }

  /** Two events are one observation exactly when they are one transfer, and every delivery is observed. */
  lemma ObservationsAreTransfers(e: FundingEvent, f: FundingEvent)
    ensures Observed(e) == Observed(f) <==>
            && e.chain == f.chain && e.signature == f.signature && e.fromAddress == f.fromAddress && e.toAddress == f.toAddress
            && e.assetKind == f.assetKind && e.mint == f.mint
  {
  }

  lemma {:induction false} EveryDeliveryIsObserved(steps: seq<Step>, config: Config, o: ObservationKey)
    ensures o in Run(EMPTY, steps, config).observations <==>
            exists j: nat :: j < |steps| && steps[j].Ingest? && Observed(steps[j].event) == o
  {
    hide Counts, EvaluatedCase, Observed;
    if steps != [] {
      var n := |steps| - 1;
      EveryDeliveryIsObserved(steps[..n], config, o);
      assert forall i: nat :: i < n ==> steps[..n][i] == steps[i];
    }
  }

  // ----- What a signal is worth -----

  /** The evidence kinds by what they signal; kinds of one signal count once. */
  predicate SignalsCreation(kinds: set<string>) { "token_creation" in kinds || "account_creation" in kinds }

  predicate SignalsLaunch(kinds: set<string>) { "launchpad_interaction" in kinds || "dex_interaction" in kinds }

  predicate SignalsMention(kinds: set<string>) { "telegram_mention" in kinds || "gmgn_mention" in kinds }

  /** No signal is in both, so both together are worth what they are worth apart. */
  predicate Apart(a: set<string>, b: set<string>) {
    && !("fanout" in a && "fanout" in b) && !(SignalsCreation(a) && SignalsCreation(b))
    && !(SignalsLaunch(a) && SignalsLaunch(b)) && !(SignalsMention(a) && SignalsMention(b))
  }

  function Worth(fanout: nat, kinds: set<string>, config: Config): int {
    PreparationConfidence(fanout, kinds, config) - 55
  }

  /** What every single signal adds, and that signals add up to the cap of forty. */
  lemma SignalsAddUp(a: set<string>, b: set<string>, fanout: nat, few: nat, config: Config)
    requires few < config.fanoutThreshold
    ensures Apart(a, b) ==>
              Worth(fanout, a + b, config) ==
                if Worth(fanout, a, config) + Worth(few, b, config) > 40 then 40 else Worth(fanout, a, config) + Worth(few, b, config)
    ensures Worth(few, {}, config) == 0 && Worth(few, {"fanout"}, config) == 15
    ensures Worth(few, {"token_creation"}, config) == Worth(few, {"account_creation"}, config) == 10
    ensures Worth(few, {"launchpad_interaction"}, config) == Worth(few, {"dex_interaction"}, config) == 10
    ensures Worth(few, {"telegram_mention"}, config) == Worth(few, {"gmgn_mention"}, config) == 5
    ensures Worth(config.fanoutThreshold, {}, config) == 5
  {
    KindsDiffer();
  }

  lemma KindsDiffer()
    ensures "fanout" !in {"token_creation", "account_creation", "launchpad_interaction", "dex_interaction", "telegram_mention", "gmgn_mention"}
    ensures "token_creation" !in {"account_creation", "launchpad_interaction", "dex_interaction", "telegram_mention", "gmgn_mention"}
    ensures "account_creation" !in {"launchpad_interaction", "dex_interaction", "telegram_mention", "gmgn_mention"}
    ensures "launchpad_interaction" !in {"dex_interaction", "telegram_mention", "gmgn_mention"}
    ensures "dex_interaction" !in {"telegram_mention", "gmgn_mention"}
    ensures "telegram_mention" != "gmgn_mention"
  {
    assert |"fanout"| == 6 && |"token_creation"| == 14 && |"account_creation"| == 16 && |"launchpad_interaction"| == 21;
    assert |"dex_interaction"| == 15 && |"telegram_mention"| == 16 && |"gmgn_mention"| == 12;
    assert "account_creation"[0] == 'a' && "telegram_mention"[0] == 't';
  }

  /** Promotion confidence stays in its band and never falls when evidence kinds or fan-out grow. */
  lemma ConfidenceIsMonotone(fanout: nat, moreFanout: nat, kinds: set<string>, moreKinds: set<string>, config: Config)
    requires fanout <= moreFanout && kinds <= moreKinds
    ensures 55 <= PreparationConfidence(fanout, kinds, config) <= PreparationConfidence(moreFanout, moreKinds, config) <= 95
  {
  }

  /** More money, a higher price or a lower bar never makes a qualifying event stop qualifying. */
  lemma QualifyingIsMonotone(e: FundingEvent, f: FundingEvent, config: Config, lower: Config,
                             percentile: Option<real>, lowerPercentile: Option<real>)
    requires f == e.(nativeAmount := f.nativeAmount, amountUsd := f.amountUsd)
    requires f.nativeAmount >= e.nativeAmount
    requires e.amountUsd.Some? ==> f.amountUsd.Some? && f.amountUsd.value >= e.amountUsd.value
    requires lower.largeFundingMinSol <= config.largeFundingMinSol && lower.largeFundingMinUsd <= config.largeFundingMinUsd
    requires lower.percentileFloorSol <= config.percentileFloorSol
    requires percentile.Some? ==> lowerPercentile.Some? && lowerPercentile.value <= percentile.value
    requires QualifiesAsLargeFunding(e, config, percentile)
    ensures QualifiesAsLargeFunding(f, lower, lowerPercentile)
  {
  }

  /**
    * Deployment evidence deploys a case exactly when the case is not yet terminal and, if it is still
    * only funded, its window has not run out: expiry is looked at first.
    */
  lemma DeploymentNeedsOpenWindow(r: Radar, key: CaseKey, now: int, config: Config)
    requires key in r.cases && "deployment" in Kinds(r.events, r.cases[key].id, now)
    ensures var stage, after := r.cases[key].stage, Evaluated(r, key, now, config).0.cases[key].stage;
            && (after == Deployed <==>
                  stage == Deployed || stage == Preparation || (stage == Funded && now <= r.cases[key].deployWindowEndsAt))
            && (stage == Funded && now > r.cases[key].deployWindowEndsAt ==> after == Dismissed)
  {
  }

  /**
    * A case still funded, and from then on only evaluated after its window, is never deployed, whatever
    * evidence arrives: it is dismissed if it is evaluated at all.
    */
  lemma {:induction false} LateCaseNeverDeploys(steps: seq<Step>, i: nat, key: CaseKey, config: Config)
    requires i <= |steps| && key in Run(EMPTY, steps[..i], config).cases
    requires Run(EMPTY, steps[..i], config).cases[key].stage == Funded
    requires forall j | i <= j < |steps| && steps[j].Evaluate? && steps[j].key == key ::
               steps[j].now > Run(EMPTY, steps[..i], config).cases[key].deployWindowEndsAt
    ensures var r := Run(EMPTY, steps, config);
            && key in r.cases
            && r.cases[key].deployWindowEndsAt == Run(EMPTY, steps[..i], config).cases[key].deployWindowEndsAt
            && r.cases[key].stage ==
                 if exists j :: i <= j < |steps| && steps[j].Evaluate? && steps[j].key == key then Dismissed else Funded
    decreases |steps|
  {
    hide Next;
    if i == |steps| {
      assert steps[..i] == steps;
    } else {
      var before := steps[..|steps| - 1];
      assert before[..i] == steps[..i];
      LateCaseNeverDeploys(before, i, key, config);
      LateStep(Run(EMPTY, before, config), steps[|steps| - 1], key, config);
      assert (exists j :: i <= j < |steps| && steps[j].Evaluate? && steps[j].key == key) <==>
             (exists j :: i <= j < |before| && before[j].Evaluate? && before[j].key == key) ||
             (steps[|steps| - 1].Evaluate? && steps[|steps| - 1].key == key) by {
        assert forall j | 0 <= j < |before| :: before[j] == steps[j];
      }
    }
  }

  lemma LateStep(r: Radar, step: Step, key: CaseKey, config: Config)
    requires key in r.cases && (r.cases[key].stage == Funded || r.cases[key].stage == Dismissed)
    requires step.Evaluate? && step.key == key ==> step.now > r.cases[key].deployWindowEndsAt
    ensures var s := Next(r, step, config);
            && key in s.cases && s.cases[key].deployWindowEndsAt == r.cases[key].deployWindowEndsAt
            && s.cases[key].stage == if step.Evaluate? && step.key == key then Dismissed else r.cases[key].stage
  {
  }

  /** The run without the events that are only processed, stale or small. */
  function CountedSteps(steps: seq<Step>, config: Config): seq<Step> {
    if steps == [] then []
    else
      var before, last := CountedSteps(steps[..|steps| - 1], config), steps[|steps| - 1];
      if last.Ingest? && !Counts(last.event, config, last.percentile) then before else before + [last]
  }

  predicate SameButObservations(r: Radar, s: Radar) {
    r == s.(observations := r.observations)
  }

  lemma NextIgnoresObservations(r: Radar, s: Radar, step: Step, config: Config)
    requires SameButObservations(r, s)
    ensures SameButObservations(Next(r, step, config), Next(s, step, config))
  {
    hide EvaluatedCase, Counts;
  }

  /** Events that do not count are invisible: cases, evidence and ids are those of the run without them. */
  lemma {:induction false} UncountedEventsAreInvisible(steps: seq<Step>, config: Config)
    ensures SameButObservations(Run(EMPTY, CountedSteps(steps, config), config), Run(EMPTY, steps, config))
  {
    if steps != [] {
      hide Next, Counts;
      var before, last := steps[..|steps| - 1], steps[|steps| - 1];
      UncountedEventsAreInvisible(before, config);
      var kept := CountedSteps(before, config);
      if last.Ingest? && !Counts(last.event, config, last.percentile) {
        UncountedStep(Run(EMPTY, before, config), last, config);
      } else {
        assert (kept + [last])[..|kept|] == kept;
        NextIgnoresObservations(Run(EMPTY, kept, config), Run(EMPTY, before, config), last, config);
      }
    }
  }

  lemma UncountedStep(r: Radar, step: Step, config: Config)
    requires step.Ingest? && !Counts(step.event, config, step.percentile)
    ensures SameButObservations(r, Next(r, step, config))
  {
  }

  /** A case dismissed in any run stays dismissed and refuses every later qualifying event. */
  lemma DismissedForGood(steps: seq<Step>, i: nat, key: CaseKey, config: Config, e: FundingEvent, percentile: Option<real>, children: nat)
    requires i <= |steps| && key in Run(EMPTY, steps[..i], config).cases
    requires Run(EMPTY, steps[..i], config).cases[key].stage == Dismissed
    requires KeyOf(key.workspace, e) == key && Counts(e, config, percentile)
    ensures var r := Run(EMPTY, steps, config);
            && key in r.cases && r.cases[key].stage == Dismissed
            && Ingested(r, key.workspace, e, config, percentile, children).1 == Failure(DuplicateCase)
  {
    LifecycleHolds(steps, i, config);
  }

  /**
    * Delivering one qualifying event twice gives two kinds of evidence, so a redelivery alone meets a
    * requirement of two: the promotion happens exactly when the source is not infrastructure, the
    * window is open, the event is observed, and no more than two kinds are required.
    */
  lemma RedeliveryPromotes(r: Radar, workspace: int, e: FundingEvent, config: Config, percentile: Option<real>,
                           children: nat, now: int)
    requires Sound(r) && KeyOf(workspace, e) !in r.cases && Counts(e, config, percentile)
    ensures var key := KeyOf(workspace, e);
            var once := Ingested(r, workspace, e, config, percentile, children).0;
            var twice := Ingested(once, workspace, e, config, percentile, children).0;
            && twice.observations == once.observations
            && (Evaluated(twice, key, now, config).1.stage == Preparation <==>
                  && !e.infrastructureSource && config.preparationEvidenceRequired <= 2
                  && e.observedAt <= now <= e.observedAt + config.preparationWindowDays * DAY)
  {
    hide Counts, PreparationConfidence, Kinds, HasNonInfrastructure;
    var id := r.lastId + 1;
    var twice := Ingested(Ingested(r, workspace, e, config, percentile, children).0, workspace, e, config, percentile, children).0;
    assert twice.events == r.events + [CaseEvent(id, "first_funding", e.observedAt, e.infrastructureSource)]
                                    + [CaseEvent(id, "additional_funding", e.observedAt, e.infrastructureSource)];
    NoEventsYet(r, id);
    KindsOfTwo(r.events, twice.events, id, e.observedAt, e.infrastructureSource, now);
  }

  lemma NoEventsYet(r: Radar, id: nat)
    requires Sound(r) && id > r.lastId
    ensures forall x | x in r.events :: x.caseId != id
  {
  }

  lemma KindsOfTwo(before: seq<CaseEvent>, after: seq<CaseEvent>, id: nat, at: int, infrastructure: bool, now: int)
    requires forall x | x in before :: x.caseId != id
    requires after == before + [CaseEvent(id, "first_funding", at, infrastructure)]
                             + [CaseEvent(id, "additional_funding", at, infrastructure)]
    ensures |Kinds(after, id, now)| == (if at <= now then 2 else 0) && "deployment" !in Kinds(after, id, now)
    ensures HasNonInfrastructure(after, id, now) <==> at <= now && !infrastructure
  {
    var first, second := CaseEvent(id, "first_funding", at, infrastructure), CaseEvent(id, "additional_funding", at, infrastructure);
    assert first in after && second in after;
    assert forall x :: x in after && x.caseId == id <==> x == first || x == second;
    TwoKindsDiffer();
    var kinds := Kinds(after, id, now);
    if at <= now {
      assert kinds == {"first_funding", "additional_funding"};
    } else {
      assert kinds == {};
    }
  }

  lemma TwoKindsDiffer()
    ensures "first_funding" != "additional_funding" && "first_funding" != "deployment" && "additional_funding" != "deployment"
  {
    assert |"first_funding"| == 13 && |"additional_funding"| == 18 && |"deployment"| == 10;
  }
}
