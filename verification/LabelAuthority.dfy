/** Wallet label authority (src/db.rs, src/filter.rs), for one wallet of one workspace. */
module LabelAuthority {
  import opened Util
  import Text

  datatype Label = Label(disposition: string, manual: bool, revokedAt: Option<int>, expiresAt: Option<int>)

  predicate IsLive(l: Label, now: int) {
    l.revokedAt.None? && (l.expiresAt.None? || l.expiresAt.value > now)
  }

  /** The rows the disposition query returns. */
  function LiveRows(labels: seq<Label>, now: int): (rows: seq<Label>)
    ensures forall l :: l in rows <==> l in labels && IsLive(l, now)
  {
    if labels == [] then []
    else if IsLive(labels[0], now) then [labels[0]] + LiveRows(labels[1..], now)
    else LiveRows(labels[1..], now)
  }

  function ManualRows(rows: seq<Label>): (manual: seq<Label>)
    ensures forall l :: l in manual <==> l in rows && l.manual
  {
    if rows == [] then []
    else if rows[0].manual then [rows[0]] + ManualRows(rows[1..])
    else ManualRows(rows[1..])
  }

  /** Lower is more restrictive; None is outside the vocabulary. */
  function RestrictivenessRank(disposition: string): Option<nat> {
    match disposition
    case "skip" => Some(0)
    case "flow_only" => Some(1)
    case "watch" => Some(2)
    case "score" => Some(3)
    case _ => None
  }

  predicate Known(l: Label) {
    RestrictivenessRank(l.disposition).Some?
  }

  function Rank(l: Label): nat
    requires Known(l)
  {
    RestrictivenessRank(l.disposition).value
  }

  /** The running comparison: a later label replaces the best one only when strictly stronger. */
  function Better(best: Option<Label>, l: Label): Label
    requires Known(l) && (best.Some? ==> Known(best.value))
  {
    match best
    case None => l
    case Some(current) =>
      if l.manual && !current.manual then l
      else if l.manual == current.manual && Rank(l) < Rank(current) then l
      else current
  }

  /** The label that wins among `rows`, or the first disposition outside the vocabulary. */
  function Winner(rows: seq<Label>): (r: Result<Option<Label>, string>)
    ensures r.Success? && r.value.Some? ==> Known(r.value.value)
  {
    if rows == [] then Success(None)
    else
      var last := rows[|rows| - 1];
      match Winner(rows[..|rows| - 1])
      case Failure(e) => Failure(e)
      case Success(best) => if Known(last) then Success(Some(Better(best, last))) else Failure(last.disposition)
  }

  function DispositionOf(r: Result<Option<Label>, string>): Result<Option<string>, string> {
    match r
    case Failure(e) => Failure(e)
    case Success(None) => Success(None)
    case Success(Some(l)) => Success(Some(l.disposition))
  }

  method BestLabel(rows: seq<Label>) returns (r: Result<Option<string>, string>)
    ensures r == DispositionOf(Winner(rows))
  {
    var best: Option<Label> := None;
    for i := 0 to |rows|
      invariant best.Some? ==> Known(best.value)
      invariant Winner(rows[..i]) == Success(best)
    {
      assert rows[..i + 1][..i] == rows[..i];
      if !Known(rows[i]) {
        FirstUnknownWins(rows, i + 1);
        return Failure(rows[i].disposition);
      }
      best := Some(Better(best, rows[i]));
    }
    assert rows[..|rows|] == rows;
    r := match best case None => Success(None) case Some(l) => Success(Some(l.disposition));
  }

  lemma FirstUnknownWins(rows: seq<Label>, i: nat)
    requires i <= |rows| && Winner(rows[..i]).Failure?
    ensures Winner(rows) == Winner(rows[..i])
  {
    if i == |rows| {
      assert rows[..i] == rows;
    } else {
      assert rows[..|rows| - 1][..i] == rows[..i];
      FirstUnknownWins(rows[..|rows| - 1], i);
    }
  }

  function ActiveDisposition(labels: seq<Label>, now: int): Result<Option<string>, string> {
    DispositionOf(Winner(LiveRows(labels, now)))
  }

  function ManualDisposition(labels: seq<Label>, now: int): Result<Option<string>, string> {
    DispositionOf(Winner(ManualRows(LiveRows(labels, now))))
  }

  method ComputeActiveDisposition(labels: seq<Label>, now: int) returns (r: Result<Option<string>, string>)
    ensures r == ActiveDisposition(labels, now)
  {
    r := BestLabel(LiveRows(labels, now));
  }

  method ComputeManualDisposition(labels: seq<Label>, now: int) returns (r: Result<Option<string>, string>)
    ensures r == ManualDisposition(labels, now)
  {
    r := BestLabel(ManualRows(LiveRows(labels, now)));
  }

  // ----- The authority rule, independent of the order of the rows -----

  /** `l` beats or equals `m`: manual before automatic, then the more restrictive one. */
  predicate Outranks(l: Label, m: Label)
    requires Known(l) && Known(m)
  {
    (l.manual && !m.manual) || (l.manual == m.manual && Rank(l) <= Rank(m))
  }

  predicate AllKnown(rows: seq<Label>) {
    forall l | l in rows :: Known(l)
  }

  /** The fold returns a label of the rows that outranks every other, and fails iff one is unknown. */
  lemma {:induction false} WinnerOutranksAll(rows: seq<Label>)
    ensures Winner(rows).Success? <==> AllKnown(rows)
    ensures AllKnown(rows) ==>
              && (Winner(rows).value.None? <==> rows == [])
              && (rows != [] ==> Winner(rows).value.value in rows &&
                                 forall m | m in rows :: Outranks(Winner(rows).value.value, m))
  {
    if rows != [] {
      var before, last := rows[..|rows| - 1], rows[|rows| - 1];
      WinnerOutranksAll(before);
      assert rows == before + [last];
      assert forall l :: l in rows <==> l in before || l == last;
    }
  }

  lemma RankIsInjective(d: string, e: string)
    requires RestrictivenessRank(d).Some? && RestrictivenessRank(d) == RestrictivenessRank(e)
    ensures d == e
  {
  }

  /** Any label that outranks every row decides, wherever it stands in the rows. */
  lemma StrongestDecides(rows: seq<Label>, l: Label)
    requires AllKnown(rows) && l in rows && forall m | m in rows :: Outranks(l, m)
    ensures DispositionOf(Winner(rows)) == Success(Some(l.disposition))
  {
    WinnerOutranksAll(rows);
    var w := Winner(rows).value.value;
    assert Outranks(l, w) && Outranks(w, l);
    RankIsInjective(l.disposition, w.disposition);
  }

  /** The answer is a function of which labels are live, not of their order or multiplicity. */
  lemma OrderIrrelevant(a: seq<Label>, b: seq<Label>, now: int)
    requires forall l :: l in a <==> l in b
    ensures ActiveDisposition(a, now).Failure? <==> ActiveDisposition(b, now).Failure?
    ensures ActiveDisposition(a, now).Success? ==> ActiveDisposition(a, now) == ActiveDisposition(b, now)
    ensures ActiveDisposition(a, now).Failure? <==> exists l :: l in a && IsLive(l, now) && !Known(l)
  {
    var ra, rb := LiveRows(a, now), LiveRows(b, now);
    assert forall l :: l in ra <==> l in rb;
    assert rb != [] ==> rb[0] in ra;
    WinnerOutranksAll(ra);
    WinnerOutranksAll(rb);
    if AllKnown(ra) {
      if ra != [] {
        assert ra[0] in rb;
        StrongestDecides(rb, Winner(ra).value.value);
      }
    }
  }

  /** With a live manual label and only known dispositions, the manual labels decide alone. */
  lemma ManualLabelsDecide(labels: seq<Label>, now: int)
    requires AllKnown(LiveRows(labels, now))
    requires exists l :: l in labels && l.manual && IsLive(l, now)
    ensures ActiveDisposition(labels, now) == ManualDisposition(labels, now)
    ensures ManualDisposition(labels, now).Success? && ManualDisposition(labels, now).value.Some?
  {
    var rows := LiveRows(labels, now);
    var manual := ManualRows(rows);
    var l :| l in labels && l.manual && IsLive(l, now);
    assert l in manual;
    WinnerOutranksAll(manual);
    StrongestDecides(rows, Winner(manual).value.value);
  }

  /** An unknown live disposition is an error for every reader, never a guess. */
  lemma UnknownFails(labels: seq<Label>, now: int)
    requires !AllKnown(LiveRows(labels, now))
    ensures ActiveDisposition(labels, now).Failure?
  {
    WinnerOutranksAll(LiveRows(labels, now));
  }

  /** A live manual skip wins, whatever else is on the wallet, unless some live disposition is unknown. */
  lemma ManualSkipWins(labels: seq<Label>, now: int, skip: Label)
    requires skip in labels && skip.manual && skip.disposition == "skip" && IsLive(skip, now)
    ensures ActiveDisposition(labels, now) == Success(Some("skip")) <==> AllKnown(LiveRows(labels, now))
  {
    if AllKnown(LiveRows(labels, now)) {
      StrongestDecides(LiveRows(labels, now), skip);
    } else {
      UnknownFails(labels, now);
    }
  }

  ghost predicate HasManual(labels: seq<Label>, now: int) {
    exists l :: l in labels && l.manual && IsLive(l, now)
  }

  // ----- Traversal -----

  function DispositionStopsTraversal(disposition: string): Result<bool, string> {
    match RestrictivenessRank(disposition)
    case None => Failure(disposition)
    case Some(rank) => Success(rank <= RestrictivenessRank("flow_only").value)
  }

  /** Whether `trace_wallet` treats the wallet as a flow endpoint. */
  function TraceStops(labels: seq<Label>, now: int): Result<bool, string> {
    match ActiveDisposition(labels, now)
    case Failure(e) => Failure(e)
    case Success(None) => Success(false)
    case Success(Some(d)) => DispositionStopsTraversal(d)
  }

  /** The same label, or one as manual and as live with a disposition at least as restrictive. */
  ghost predicate AsStrict(l: Label, m: Label) {
    l == m || (Known(l) && Known(m) && Rank(m) <= Rank(l) && l == m.(disposition := l.disposition))
  }

  ghost predicate Tightened(a: seq<Label>, b: seq<Label>) {
    |a| == |b| && forall i | 0 <= i < |a| :: AsStrict(a[i], b[i])
  }

  lemma TightenedStaysKnown(a: seq<Label>, b: seq<Label>, now: int)
    requires Tightened(a, b) && AllKnown(LiveRows(a, now))
    ensures AllKnown(LiveRows(b, now))
  {
    hide LiveRows, RestrictivenessRank;
    forall l | l in LiveRows(b, now)
      ensures Known(l)
    {
      var i :| 0 <= i < |b| && b[i] == l;
      assert AsStrict(a[i], b[i]) && a[i] in LiveRows(a, now);
    }
  }

  /** The label that wins on one side and its counterpart on the other. */
  lemma Counterpart(a: seq<Label>, b: seq<Label>, now: int, w: Label) returns (v: Label)
    requires |a| == |b| && (forall i | 0 <= i < |a| :: AsStrict(a[i], b[i])) && w in LiveRows(a, now)
    ensures v in LiveRows(b, now) && AsStrict(w, v)
  {
    hide LiveRows, RestrictivenessRank;
    var i :| 0 <= i < |a| && a[i] == w;
    v := b[i];
  }

  lemma Original(a: seq<Label>, b: seq<Label>, now: int, v: Label) returns (w: Label)
    requires |a| == |b| && (forall i | 0 <= i < |a| :: AsStrict(a[i], b[i])) && v in LiveRows(b, now)
    ensures w in LiveRows(a, now) && AsStrict(w, v)
  {
    hide LiveRows, RestrictivenessRank;
    var i :| 0 <= i < |b| && b[i] == v;
    w := a[i];
  }

  /** Tightening labels in place never lets a stopped trace walk on. */
  lemma StopIsMonotone(a: seq<Label>, b: seq<Label>, now: int)
    requires Tightened(a, b) && TraceStops(a, now) == Success(true)
    ensures TraceStops(b, now) == Success(true)
  {
    hide TraceStops, LiveRows, Winner, RestrictivenessRank;
    var ra, rb := LiveRows(a, now), LiveRows(b, now);
    StopsByRank(a, now);
    StopsByRank(b, now);
    WinnerOutranksAll(ra);
    WinnerOutranksAll(rb);
    TightenedStaysKnown(a, b, now);
    var w := Winner(ra).value.value;
    var x := Counterpart(a, b, now, w);
    var v := Winner(rb).value.value;
    var y := Original(a, b, now, v);
    assert Outranks(v, x) && Outranks(w, y);
  }

  lemma {:induction false} LiveRowsAppend(labels: seq<Label>, l: Label, now: int)
    ensures LiveRows(labels + [l], now) == LiveRows(labels, now) + if IsLive(l, now) then [l] else []
  {
    if labels == [] {
      assert labels + [l] == [l];
    } else {
      assert (labels + [l])[1..] == labels[1..] + [l];
      LiveRowsAppend(labels[1..], l, now);
    }
  }

  /** Whether the trace stops, from the winning label. */
  lemma StopsByRank(labels: seq<Label>, now: int)
    ensures var r := Winner(LiveRows(labels, now));
            && TraceStops(labels, now).Success? == r.Success?
            && (r.Success? ==> TraceStops(labels, now).value == (r.value.Some? && Rank(r.value.value) <= 1))
  {
    hide Winner, LiveRows;
  }

  lemma WinnerAppend(rows: seq<Label>, l: Label)
    requires Winner(rows).Success?
    ensures Winner(rows + [l]) == if Known(l) then Success(Some(Better(Winner(rows).value, l))) else Failure(l.disposition)
  {
    assert (rows + [l])[..|rows|] == rows;
  }

  lemma ManualWinner(labels: seq<Label>, now: int)
    requires Winner(LiveRows(labels, now)).Success? && Winner(LiveRows(labels, now)).value.Some?
    ensures Winner(LiveRows(labels, now)).value.value.manual <==> HasManual(labels, now)
  {
    var rows := LiveRows(labels, now);
    WinnerOutranksAll(rows);
    var w := Winner(rows).value.value;
    assert w in labels && IsLive(w, now);
    if m :| m in labels && m.manual && IsLive(m, now) {
      assert m in rows && Outranks(w, m);
    }
  }

  /**
    * Adding a label lets a stopped trace walk on exactly when the new label is a live manual `watch` or
    * `score` and no manual label was live before: it then outranks the automatic labels that stopped it.
    */
  lemma AddedLabelReopensTrace(labels: seq<Label>, l: Label, now: int)
    requires TraceStops(labels, now) == Success(true)
    ensures TraceStops(labels + [l], now) == Success(false) <==>
            && IsLive(l, now) && l.manual && (l.disposition == "watch" || l.disposition == "score")
            && !HasManual(labels, now)
  {
    hide Winner, LiveRows, TraceStops, IsLive, HasManual;
    LiveRowsAppend(labels, l, now);
    StopsByRank(labels, now);
    StopsByRank(labels + [l], now);
    ManualWinner(labels, now);
    if IsLive(l, now) {
      WinnerAppend(LiveRows(labels, now), l);
    } else {
      assert LiveRows(labels + [l], now) == LiveRows(labels, now);
    }
  }

  /** For instance, a manual watch ends the stop of an automatic flow_only. */
  lemma ManualWatchReopensTrace(now: int)
    ensures var flowOnly := Label("flow_only", false, None, None);
            var watch := Label("watch", true, None, None);
            && TraceStops([flowOnly], now) == Success(true)
            && TraceStops([flowOnly] + [watch], now) == Success(false)
  {
    var flowOnly := Label("flow_only", false, None, None);
    StrongestDecides(LiveRows([flowOnly], now), flowOnly);
    AddedLabelReopensTrace([flowOnly], Label("watch", true, None, None), now);
  }

  // ----- Effective and automatic dispositions -----

  datatype Disposition = Score | Watch | FlowOnly | Skip

  /** Spelled in any case and with blanks around it; two names have a synonym. */
  function Parse(value: string): Option<Disposition> {
    match Text.Lowercase(Text.Trim(value))
    case "score" => Some(Score)
    case "watch" => Some(Watch)
    case "flow_only" => Some(FlowOnly)
    case "flow-only" => Some(FlowOnly)
    case "skip" => Some(Skip)
    case "block" => Some(Skip)
    case _ => None
  }

  function NameOf(d: Disposition): string {
    match d case Score => "score" case Watch => "watch" case FlowOnly => "flow_only" case Skip => "skip"
  }

  lemma PlainName(d: Disposition)
    ensures Text.Lowercase(Text.Trim(NameOf(d))) == NameOf(d)
  {
    var name := NameOf(d);
    assert !Text.IsWhitespace(name[0]) && !Text.IsWhitespace(name[|name| - 1]);
    assert Text.Trim(name) == name;
    assert forall c | c in name :: Text.Lower(c) == c;
    Text.LowercaseIsIdentity(name);
  }

  /** The vocabulary of the labels is parsed name by name. */
  lemma ParseNames(value: string)
    requires RestrictivenessRank(value).Some?
    ensures Parse(value).Some? && NameOf(Parse(value).value) == value
  {
    hide Text.Lowercase, Text.Trim;
    PlainName(Score);
    PlainName(Watch);
    PlainName(FlowOnly);
    PlainName(Skip);
    NamesDiffer();
  }

  /** The effective disposition is named by the winning label, and `watch` without one. */
  lemma EffectiveIsNamed(labels: seq<Label>, now: int)
    requires Winner(LiveRows(labels, now)).Success?
    ensures var winner, effective := Winner(LiveRows(labels, now)).value, EffectiveDisposition(labels, now);
            effective.Success? && NameOf(effective.value) == if winner.Some? then winner.value.disposition else "watch"
  {
    hide Parse, Winner, LiveRows, RestrictivenessRank;
    var winner := Winner(LiveRows(labels, now)).value;
    if winner.Some? {
      ParseNames(winner.value.disposition);
    }
  }

  lemma NamesDiffer()
    ensures "score" != "watch" && "score" != "flow_only" && "score" != "skip" && "score" != "flow-only"
    ensures "watch" != "flow_only" && "watch" != "skip" && "flow_only" != "skip" && "watch" != "flow-only" && "skip" != "flow-only"
  {
    assert |"score"| == 5 && |"watch"| == 5 && |"flow_only"| == 9 && |"skip"| == 4 && |"flow-only"| == 9;
    assert "score"[0] == 's' && "watch"[0] == 'w';
  }

  function EffectiveDisposition(labels: seq<Label>, now: int): Result<Disposition, string> {
    match ActiveDisposition(labels, now)
    case Failure(e) => Failure(e)
    case Success(None) => Success(Watch)
    case Success(Some(d)) => match Parse(d) case None => Failure(d) case Some(p) => Success(p)
  }

  predicate AllowsDeepSync(d: Disposition) { !d.Skip? }

  predicate AllowsScoring(d: Disposition) { d.Score? }

  /** The labels that count: the live manual ones when there are any, all live ones otherwise. */
  ghost predicate Deciding(labels: seq<Label>, now: int, l: Label) {
    l in labels && IsLive(l, now) && (l.manual || !HasManual(labels, now))
  }

  /** Some label that counts says so. */
  ghost predicate Says(labels: seq<Label>, now: int, disposition: string) {
    exists l :: Deciding(labels, now, l) && l.disposition == disposition
  }

  /** The winner is a label that counts, at least as restrictive as every other that does. */
  lemma WinnerDecides(labels: seq<Label>, now: int)
    requires AllKnown(LiveRows(labels, now))
    ensures var rows := LiveRows(labels, now);
            && Winner(rows).Success? && (Winner(rows).value.None? <==> forall l :: !Deciding(labels, now, l))
            && (Winner(rows).value.Some? ==>
                  && Deciding(labels, now, Winner(rows).value.value)
                  && forall l :: Deciding(labels, now, l) ==> Known(l) && Rank(Winner(rows).value.value) <= Rank(l))
  {
    var rows := LiveRows(labels, now);
    WinnerOutranksAll(rows);
    if rows == [] {
      forall l
        ensures !Deciding(labels, now, l)
      {
        assert l !in rows;
      }
    } else {
      var w := Winner(rows).value.value;
      if HasManual(labels, now) {
        var m :| m in labels && m.manual && IsLive(m, now);
        assert m in rows && Outranks(w, m);
      }
      forall l | Deciding(labels, now, l)
        ensures Known(l) && Rank(w) <= Rank(l)
      {
        assert l in rows && Outranks(w, l);
        assert w.manual ==> HasManual(labels, now);
      }
      assert Deciding(labels, now, w);
    }
  }

  /**
    * Policy read off the rows; it is an error exactly when some live disposition is unknown. Otherwise it is
    * the most restrictive disposition among the labels that count, and `watch` when none does: a wallet may
    * be scored exactly when some label counts and all that count say `score`, its history is synced unless
    * one that counts says `skip`, and a trace stops exactly when one that counts says `skip` or `flow_only`.
    */
  lemma PolicyFromLabels(labels: seq<Label>, now: int)
    ensures EffectiveDisposition(labels, now).Success? <==> AllKnown(LiveRows(labels, now))
    ensures TraceStops(labels, now).Success? <==> AllKnown(LiveRows(labels, now))
    ensures AllKnown(LiveRows(labels, now)) ==>
              var d := EffectiveDisposition(labels, now).value;
              && (AllowsScoring(d) <==> Says(labels, now, "score") && forall l :: Deciding(labels, now, l) ==> l.disposition == "score")
              && (!AllowsDeepSync(d) <==> Says(labels, now, "skip"))
              && (TraceStops(labels, now).value <==> Says(labels, now, "skip") || Says(labels, now, "flow_only"))
              && NameOf(d) == if Says(labels, now, "skip") then "skip"
                              else if Says(labels, now, "flow_only") then "flow_only"
                              else if Says(labels, now, "watch") || forall l :: !Deciding(labels, now, l) then "watch"
                              else "score"
  {
    hide Deciding, AllKnown, LiveRows, Parse, EffectiveDisposition, Winner, TraceStops, ActiveDisposition;
    if AllKnown(LiveRows(labels, now)) {
      WinnerDecides(labels, now);
      EffectiveIsNamed(labels, now);
      StopsByRank(labels, now);
      NamesDiffer();
      var winner := Winner(LiveRows(labels, now)).value;
      if winner.Some? {
        assert Says(labels, now, winner.value.disposition);
      }
    } else {
      UnknownFails(labels, now);
      UnknownPolicy(labels, now);
    }
  }

  lemma UnknownPolicy(labels: seq<Label>, now: int)
    requires ActiveDisposition(labels, now).Failure?
    ensures EffectiveDisposition(labels, now).Failure? && TraceStops(labels, now).Failure?
  {
    hide ActiveDisposition, Parse;
  }

  /** A label that is revoked, or whose expiry has come, plays no part; any other one is read. */
  lemma OnlyLiveLabelsCount(before: seq<Label>, l: Label, after: seq<Label>, now: int)
    ensures l.revokedAt.Some? || (l.expiresAt.Some? && l.expiresAt.value <= now) ==>
              ActiveDisposition(before + [l] + after, now) == ActiveDisposition(before + after, now)
    ensures l.revokedAt.None? && (l.expiresAt.Some? ==> now < l.expiresAt.value) && RestrictivenessRank(l.disposition).Some? ==>
              ActiveDisposition([l], now) == Success(Some(l.disposition))
  {
    hide Winner, RestrictivenessRank;
    LiveRowsSplit(before + [l], after, now);
    LiveRowsSplit(before, after, now);
    LiveRowsAppend(before, l, now);
    if IsLive(l, now) && RestrictivenessRank(l.disposition).Some? {
      assert [l][1..] == [];
      assert LiveRows([l], now) == [l];
      StrongestDecides([l], l);
    } else if !IsLive(l, now) {
      assert LiveRows(before, now) + [] == LiveRows(before, now);
    }
  }

  lemma {:induction false} LiveRowsSplit(a: seq<Label>, b: seq<Label>, now: int)
    ensures LiveRows(a + b, now) == LiveRows(a, now) + LiveRows(b, now)
  {
    if a == [] {
      assert a + b == b;
    } else {
      assert (a + b)[1..] == a[1..] + b;
      LiveRowsSplit(a[1..], b, now);
    }
  }

  /** A manual answer is returned as it is; otherwise only an auto-skip writes a label. */
  method ApplyAutomaticDisposition(labels: seq<Label>, now: int, autoSkip: bool)
    returns (r: Result<Disposition, string>, after: seq<Label>)
    ensures (r, after) == Applied(labels, now, autoSkip)
  {
    var manual := ComputeManualDisposition(labels, now);
    after := labels;
    if manual.Failure? {
      return Failure(manual.error), after;
    }
    if manual.value.Some? && Parse(manual.value.value).Some? {
      return Success(Parse(manual.value.value).value), after;
    }
    if !autoSkip {
      return Success(Score), after;
    }
    after := labels + [AUTO_SKIP];
    r := Success(Skip);
  }

  const AUTO_SKIP := Label("skip", false, None, None)

  function Applied(labels: seq<Label>, now: int, autoSkip: bool): (Result<Disposition, string>, seq<Label>) {
    match ManualDisposition(labels, now)
    case Failure(e) => (Failure(e), labels)
    case Success(manual) =>
      if manual.Some? && Parse(manual.value).Some? then (Success(Parse(manual.value).value), labels)
      else if autoSkip then (Success(Skip), labels + [AUTO_SKIP])
      else (Success(Score), labels)
  }

  ghost predicate OnlyScores(labels: seq<Label>, now: int) {
    && (exists l :: l in labels && IsLive(l, now))
    && forall l :: l in labels && IsLive(l, now) ==> l.disposition == "score"
  }

  lemma ManualAnswer(labels: seq<Label>, now: int)
    ensures var manual := ManualDisposition(labels, now);
            && (manual.Success? ==> (manual.value.Some? <==> HasManual(labels, now)))
            && (manual.Success? && manual.value.Some? ==> Parse(manual.value.value).Some?)
            && (AllKnown(LiveRows(labels, now)) ==> manual.Success?)
  {
    hide Parse, RestrictivenessRank, Winner;
    var manual := ManualRows(LiveRows(labels, now));
    WinnerOutranksAll(manual);
    if manual != [] {
      assert manual[0] in labels;
      if Winner(manual).Success? {
        ParseNames(Winner(manual).value.value.disposition);
      }
    }
  }

  lemma UnknownStays(labels: seq<Label>, added: Label, now: int)
    requires !AllKnown(LiveRows(labels, now))
    ensures !AllKnown(LiveRows(labels + [added], now))
  {
    var l :| l in LiveRows(labels, now) && !Known(l);
    assert l in labels + [added];
  }

  /**
    * The automatic path never overrides a manual label. It answers, and with the wallet's effective
    * disposition afterwards, exactly when every live disposition is known and a manual label exists, the
    * wallet is auto-skipped, or some label is live and all live ones say `score`: otherwise it answers
    * `score` whatever they say, or answers beside an unknown automatic label that every reader refuses.
    */
  lemma AutomaticAnswerIsEffective(labels: seq<Label>, now: int, autoSkip: bool)
    ensures var (answer, after) := Applied(labels, now, autoSkip);
            && (HasManual(labels, now) ==> after == labels)
            && (answer.Success? && answer == EffectiveDisposition(after, now) <==>
                AllKnown(LiveRows(labels, now)) && (HasManual(labels, now) || autoSkip || OnlyScores(labels, now)))
  {
    hide AllKnown, LiveRows, Parse;
    ManualAnswer(labels, now);
    if !AllKnown(LiveRows(labels, now)) {
      UnknownFails(labels, now);
      UnknownStays(labels, AUTO_SKIP, now);
      UnknownFails(labels + [AUTO_SKIP], now);
    } else {
      KnownAnswerIsEffective(labels, now, autoSkip);
    }
  }

  lemma KnownAnswerIsEffective(labels: seq<Label>, now: int, autoSkip: bool)
    requires AllKnown(LiveRows(labels, now))
    ensures var (answer, after) := Applied(labels, now, autoSkip);
            && answer.Success?
            && (answer == EffectiveDisposition(after, now) <==> HasManual(labels, now) || autoSkip || OnlyScores(labels, now))
  {
    hide Parse, RestrictivenessRank, Winner, LiveRows, NameOf;
    ManualAnswer(labels, now);
    PolicyFromLabels(labels, now);
    if HasManual(labels, now) {
      ManualLabelsDecide(labels, now);
    } else if autoSkip {
      SkipIsSkip();
      AutoSkipStands(labels, now);
    }
  }

  lemma SkipIsSkip()
    ensures Parse("skip") == Some(Skip) && RestrictivenessRank("skip").Some?
  {
    ParseNames("skip");
    NamesDiffer();
  }

  /** An automatic skip stands at every later time, until a manual label is added; that one then decides. */
  lemma AutoSkipStands(labels: seq<Label>, later: int)
    requires AllKnown(LiveRows(labels, later)) && !HasManual(labels, later)
    ensures ActiveDisposition(labels + [AUTO_SKIP], later) == Success(Some("skip"))
    ensures forall l: Label :: l.manual && IsLive(l, later) && Known(l) ==>
              ActiveDisposition(labels + [AUTO_SKIP] + [l], later) == Success(Some(l.disposition))
  {
    hide Winner, LiveRows;
    var after := labels + [AUTO_SKIP];
    assert AUTO_SKIP in after && forall l :: l in after <==> l in labels || l == AUTO_SKIP;
    assert forall l | l in LiveRows(after, later) :: l in LiveRows(labels, later) || l == AUTO_SKIP;
    StrongestDecides(LiveRows(after, later), AUTO_SKIP);
    forall l: Label | l.manual && IsLive(l, later) && Known(l)
      ensures ActiveDisposition(after + [l], later) == Success(Some(l.disposition))
    {
      ManualAddedDecides(after, l, later);
    }
  }

  lemma ManualAddedDecides(labels: seq<Label>, l: Label, now: int)
    requires AllKnown(LiveRows(labels, now)) && !HasManual(labels, now) && l.manual && IsLive(l, now) && Known(l)
    ensures ActiveDisposition(labels + [l], now) == Success(Some(l.disposition))
  {
    hide Winner, RestrictivenessRank;
    LiveRowsAppend(labels, l, now);
    var rows := LiveRows(labels + [l], now);
    assert l in rows && forall m | m in rows :: m in LiveRows(labels, now) || m == l;
    StrongestDecides(rows, l);
  }

  datatype LabelKind = MevBot | DexBot | Sniper | Bundler | RatTrader | Arbitrage | CopyTrader | MarketMaker | OtherKind(name: string)

  const AUTO_LABEL_MIN_SWAPS := 100
  const AUTO_SKIP_LIKELIHOOD := 0.90

  /** The bot kind and whether the wallet is skipped automatically. */
  function ClassifyBot(labels: seq<LabelKind>, likelihood: real, swapCount: nat): (Option<LabelKind>, bool) {
    var kind := if MevBot in labels then Some(MevBot) else if DexBot in labels then Some(DexBot) else None;
    (kind, kind.Some? && likelihood >= AUTO_SKIP_LIKELIHOOD && swapCount >= AUTO_LABEL_MIN_SWAPS)
  }

  /** Labels other than the two execution bots are annotations: any number of them changes nothing. */
  lemma AnnotationsNeverSkip(labels: seq<LabelKind>, notes: seq<LabelKind>, likelihood: real, swapCount: nat)
    requires MevBot !in notes && DexBot !in notes
    ensures ClassifyBot(labels + notes, likelihood, swapCount) == ClassifyBot(labels, likelihood, swapCount)
    ensures ClassifyBot(notes, likelihood, swapCount) == (None, false)
    ensures ClassifyBot([MevBot] + notes, likelihood, swapCount).0 == Some(MevBot)
    ensures ClassifyBot([DexBot] + notes, likelihood, swapCount).0 == Some(DexBot)
    ensures ClassifyBot([DexBot, MevBot] + notes, likelihood, swapCount).0 == Some(MevBot)
  {
    assert MevBot in labels + notes <==> MevBot in labels;
    assert DexBot in labels + notes <==> DexBot in labels;
  }

  /** An automatic skip needs an execution bot label, a likelihood of nine tenths and a hundred swaps, all three. */
  lemma AutoSkipNeedsAllThree(labels: seq<LabelKind>, likelihood: real, swapCount: nat)
    ensures ClassifyBot(labels, likelihood, swapCount).1 <==>
            (exists l :: l in labels && (l == MevBot || l == DexBot)) && likelihood * 10.0 >= 9.0 && swapCount > 99
  {
  }
}
