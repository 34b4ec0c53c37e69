/** The weighted token bucket of the GMGN client (src/gmgn.rs), over real-valued seconds. */
module WeightedBucket {
  import opened TokenAccount
  import opened Util

  datatype RouteWeight = Light | Standard | Heavy | VeryHeavy

  function Cost(w: RouteWeight): nat {
    match w
    case Light => 1
    case Standard => 2
    case Heavy => 3
    case VeryHeavy => 5
  }

  /** Capacity and refill rate come from 32-bit settings, so they are whole numbers. */
  datatype Bucket = Bucket(capacity: nat, refillPerSecond: nat, tokens: real, lastRefill: real, pauseUntil: Option<real>)

  function Cap(b: Bucket): real { b.capacity as real }

  predicate Paused(b: Bucket, now: real) {
    b.pauseUntil.Some? && now < b.pauseUntil.value
  }

  /** Nothing moves during a pause; afterwards the whole time since the last refill is credited. */
  function Refilled(b: Bucket, now: real): Bucket {
    if Paused(b, now) then b
    else
      var open := b.(pauseUntil := None);
      if now > b.lastRefill
      then open.(tokens := Min(b.tokens + Credit(b.refillPerSecond, now - b.lastRefill), Cap(b)), lastRefill := now)
      else open
  }

  predicate Grants(b: Bucket, cost: nat, now: real) {
    Refilled(b, now).tokens >= cost as real
  }

  function AfterAcquire(b: Bucket, cost: nat, now: real): Bucket {
    var r := Refilled(b, now);
    if Grants(b, cost, now) then r.(tokens := r.tokens - cost as real) else r
  }

  /** The wait a refused caller is told. */
  function WaitFor(b: Bucket, cost: nat, now: real): real {
    var r := Refilled(b, now);
    var byRate := (cost as real - r.tokens) / Max(b.refillPerSecond as real, 0.001);
    if r.pauseUntil.Some? then Max(byRate, Max(r.pauseUntil.value - now, 0.0)) else byRate
  }

  predicate Sound(b: Bucket) {
    0.0 <= b.tokens <= Cap(b)
  }

  class BucketCell {
    const capacity: nat
    const refillPerSecond: nat
    var tokens: real
    var lastRefill: real
    var pauseUntil: Option<real>

    constructor (capacity: nat, refillPerSecond: nat, now: real)
      ensures State() == Bucket(capacity, refillPerSecond, capacity as real, now, None)
    {
      this.capacity, this.refillPerSecond := capacity, refillPerSecond;
      tokens, lastRefill, pauseUntil := capacity as real, now, None;
    }

    function State(): Bucket
      reads this
    {
      Bucket(capacity, refillPerSecond, tokens, lastRefill, pauseUntil)
    }

    method Refill(now: real)
      modifies this
      ensures State() == Refilled(old(State()), now)
    {
      if pauseUntil.Some? {
        if now < pauseUntil.value {
          return;
        }
        pauseUntil := None;
      }
      var elapsed := now - lastRefill;
      if elapsed > 0.0 {
        var grown := tokens + elapsed * refillPerSecond as real;
        tokens := if grown <= capacity as real then grown else capacity as real;
        lastRefill := now;
      }
    }

    method TryAcquire(cost: nat, now: real) returns (wait: Option<real>)
      modifies this
      ensures State() == AfterAcquire(old(State()), cost, now) == Apply(old(State()), Acquire(cost, now))
      ensures wait == if Grants(old(State()), cost, now) then None else Some(WaitFor(old(State()), cost, now))
    {
      Refill(now);
      if tokens >= cost as real {
        tokens := tokens - cost as real;
        return None;
      }
      var deficit := cost as real - tokens;
      var rate := if refillPerSecond as real >= 0.001 then refillPerSecond as real else 0.001;
      var waited := deficit / rate;
      if pauseUntil.Some? {
        var pauseWait := if pauseUntil.value - now >= 0.0 then pauseUntil.value - now else 0.0;
        if pauseWait > waited {
          waited := pauseWait;
        }
      }
      wait := Some(waited);
    }

    method PauseFor(duration: real, now: real)
      modifies this`pauseUntil
      ensures State() == old(State()).(pauseUntil := Some(now + duration)) == Apply(old(State()), Pause(duration, now))
    {
      pauseUntil := Some(now + duration);
    }

    method CurrentTokens(now: real) returns (t: real)
      modifies this
      ensures State() == Refilled(old(State()), now) == Apply(old(State()), Peek(now)) && t == State().tokens
    {
      Refill(now);
      t := tokens;
    }
  }

  // ----- Grants over an interval -----

  datatype Op =
    | Acquire(cost: nat, at: real)
    | Pause(duration: real, at: real)
    | Peek(at: real)

  function Apply(b: Bucket, op: Op): Bucket {
    match op
    case Acquire(cost, at) => AfterAcquire(b, cost, at)
    case Pause(duration, at) => b.(pauseUntil := Some(at + duration))
    case Peek(at) => Refilled(b, at)
  }

  function Run(b: Bucket, ops: seq<Op>): Bucket {
    if ops == [] then b else Apply(Run(b, ops[..|ops| - 1]), ops[|ops| - 1])
  }

  /** What one operation is granted. */
  function Paid(s: Bucket, op: Op): nat {
    if op.Acquire? && Grants(s, op.cost, op.at) then op.cost else 0
  }

  function Granted(b: Bucket, ops: seq<Op>): nat {
    if ops == [] then 0
    else Granted(b, ops[..|ops| - 1]) + Paid(Run(b, ops[..|ops| - 1]), ops[|ops| - 1])
  }

  /** A pause ends when an acquire or a peek finds it expired. */
  function Lifts(s: Bucket, op: Op): nat {
    if !op.Pause? && s.pauseUntil.Some? && !Paused(s, op.at) then 1 else 0
  }

  function Lifted(b: Bucket, ops: seq<Op>): nat {
    if ops == [] then 0
    else Lifted(b, ops[..|ops| - 1]) + Lifts(Run(b, ops[..|ops| - 1]), ops[|ops| - 1])
  }

  ghost predicate Within(ops: seq<Op>, from: real, to: real) {
    && (forall i | 0 <= i < |ops| :: from <= ops[i].at <= to)
    && (forall i, j | 0 <= i < j < |ops| :: ops[i].at <= ops[j].at)
  }

  /** The part of a grant made while the last refill still lies before `from`. */
  function EarlyPaid(s: Bucket, op: Op, from: real): nat {
    if Apply(s, op).lastRefill < from then Paid(s, op) else 0
  }

  /** What is granted since `from` before the first refill since `from`. */
  function Early(b: Bucket, ops: seq<Op>, from: real): nat {
    if ops == [] then 0
    else Early(b, ops[..|ops| - 1], from) + EarlyPaid(Run(b, ops[..|ops| - 1]), ops[|ops| - 1], from)
  }

  /** What may have been granted since `from` when bucket `b` has become `s`. */
  ghost predicate Budget(b: Bucket, s: Bucket, granted: nat, early: nat, lifted: nat, from: real) {
    && Sound(s) && s.capacity == b.capacity && s.refillPerSecond == b.refillPerSecond
    && early as real <= b.tokens
    && if s.lastRefill >= from
       then granted as real + s.tokens <= early as real + Cap(b) + Credit(b.refillPerSecond, s.lastRefill - from) &&
            (early > 0 ==> lifted > 0)
       else granted == early && granted as real + s.tokens == b.tokens && (early > 0 ==> s.pauseUntil.Some?)
  }

  /** One refill gains at most the elapsed time, and never more than a full bucket. */
  lemma RefillGain(b: Bucket, now: real)
    requires Sound(b)
    ensures var r := Refilled(b, now);
            && Sound(r) && r.capacity == b.capacity && r.refillPerSecond == b.refillPerSecond
            && (r.lastRefill == b.lastRefill ==> r.tokens == b.tokens)
            && (r.lastRefill != b.lastRefill ==> r.lastRefill == now > b.lastRefill && r.pauseUntil.None?)
            && r.tokens <= b.tokens + Credit(b.refillPerSecond, r.lastRefill - b.lastRefill)
  {
    hide Credit;
    if !Paused(b, now) && now > b.lastRefill {
      CreditIsNonNegative(b.refillPerSecond, now - b.lastRefill);
    } else {
      NoTimeNoCredit(b.refillPerSecond);
    }
  }

  lemma AcquireAccounts(b: Bucket, cost: nat, now: real)
    requires Sound(b)
    ensures var a, r := AfterAcquire(b, cost, now), Refilled(b, now);
            && Sound(a) && a.capacity == b.capacity && a.refillPerSecond == b.refillPerSecond
            && a.lastRefill == r.lastRefill && a.pauseUntil == r.pauseUntil
            && a.tokens + (if Grants(b, cost, now) then cost as real else 0.0) == r.tokens
  {
    hide Credit;
    RefillGain(b, now);
  }

  lemma StepAccounts(s: Bucket, op: Op)
    requires Sound(s) && !op.Pause?
    ensures var a, r := Apply(s, op), Refilled(s, op.at);
            && Sound(a) && a.capacity == s.capacity && a.refillPerSecond == s.refillPerSecond
            && a.lastRefill == r.lastRefill && a.pauseUntil == r.pauseUntil
            && Paid(s, op) as real + a.tokens == r.tokens
  {
    AcquireAccounts(s, if op.Acquire? then op.cost else 0, op.at);
    RefillGain(s, op.at);
  }

  lemma BudgetInside(b: Bucket, s: Bucket, op: Op, granted: nat, early: nat, lifted: nat, from: real)
    requires Sound(b) && !op.Pause? && s.lastRefill >= from && Budget(b, s, granted, early, lifted, from)
    ensures Budget(b, Apply(s, op), granted + Paid(s, op), early + EarlyPaid(s, op, from), lifted + Lifts(s, op), from)
  {
    hide Credit;
    var r := Refilled(s, op.at);
    StepAccounts(s, op);
    RefillGain(s, op.at);
    CreditSplit(b.refillPerSecond, from, s.lastRefill, r.lastRefill);
  }

  lemma BudgetCrossing(b: Bucket, s: Bucket, op: Op, granted: nat, early: nat, lifted: nat, from: real)
    requires Sound(b) && !op.Pause? && s.lastRefill < from <= op.at && Budget(b, s, granted, early, lifted, from)
    ensures Budget(b, Apply(s, op), granted + Paid(s, op), early + EarlyPaid(s, op, from), lifted + Lifts(s, op), from)
  {
    hide Credit;
    var r := Refilled(s, op.at);
    StepAccounts(s, op);
    RefillGain(s, op.at);
    if r.lastRefill != s.lastRefill {
      CreditIsNonNegative(b.refillPerSecond, r.lastRefill - from);
    }
  }

  lemma BudgetStep(b: Bucket, s: Bucket, op: Op, granted: nat, early: nat, lifted: nat, from: real)
    requires Sound(b) && from <= op.at && s.lastRefill <= op.at && Budget(b, s, granted, early, lifted, from)
    ensures Budget(b, Apply(s, op), granted + Paid(s, op), early + EarlyPaid(s, op, from), lifted + Lifts(s, op), from)
    ensures Apply(s, op).lastRefill <= op.at
  {
    hide Credit;
    if !op.Pause? {
      RefillGain(s, op.at);
      StepAccounts(s, op);
      if s.lastRefill >= from {
        BudgetInside(b, s, op, granted, early, lifted, from);
      } else {
        BudgetCrossing(b, s, op, granted, early, lifted, from);
      }
    }
  }

  lemma BudgetStart(b: Bucket, from: real)
    requires Sound(b) && b.lastRefill <= from
    ensures Budget(b, b, 0, 0, 0, from)
  {
    NoTimeNoCredit(b.refillPerSecond);
  }

  lemma {:induction false} BudgetHolds(b: Bucket, ops: seq<Op>, from: real, to: real)
    requires Sound(b) && b.lastRefill <= from && Within(ops, from, to)
    ensures Budget(b, Run(b, ops), Granted(b, ops), Early(b, ops, from), Lifted(b, ops), from)
    ensures Run(b, ops).lastRefill <= if ops == [] then from else ops[|ops| - 1].at
    decreases |ops|
  {
    hide Credit, Budget, EarlyPaid;
    if ops == [] {
      BudgetStart(b, from);
    } else {
      var earlier, op := ops[..|ops| - 1], ops[|ops| - 1];
      BudgetHolds(b, earlier, from, to);
      BudgetStep(b, Run(b, earlier), op, Granted(b, earlier), Early(b, earlier, from), Lifted(b, earlier), from);
    }
  }

  /** The textbook bound of a token bucket: one full bucket plus the refill of the interval. */
  ghost predicate Textbook(b: Bucket, ops: seq<Op>, from: real, to: real) {
    Granted(b, ops) as real <= Cap(b) + Credit(b.refillPerSecond, to - from)
  }

  /**
    * In any interval the granted cost exceeds the textbook bound by at most what is granted before the
    * first refill of the interval, and that is at most one bucket, and nothing unless a pause is lifted.
    * However many pauses are lifted, later credits only count time since the previous one.
    */
  lemma GrantsBounded(b: Bucket, ops: seq<Op>, from: real, to: real)
    requires Sound(b) && b.lastRefill <= from <= to && Within(ops, from, to)
    ensures var credit := Credit(b.refillPerSecond, to - from);
            && Granted(b, ops) as real <= Early(b, ops, from) as real + Cap(b) + credit
            && Early(b, ops, from) as real <= b.tokens
            && (Early(b, ops, from) == 0 || Lifted(b, ops) == 0 ==> Textbook(b, ops, from, to))
            && Granted(b, ops) as real <= ManyBuckets(b, Lifted(b, ops)) + credit
  {
    hide Credit, Run, Granted, Early, Lifted, Budget, ManyBuckets;
    BudgetHolds(b, ops, from, to);
    BudgetEnd(b, Run(b, ops), Granted(b, ops), Early(b, ops, from), Lifted(b, ops), from, to);
    ExtraBuckets(b, Lifted(b, ops));
  }

  lemma BudgetEnd(b: Bucket, s: Bucket, granted: nat, early: nat, lifted: nat, from: real, to: real)
    requires Sound(b) && from <= to && s.lastRefill <= to && Budget(b, s, granted, early, lifted, from)
    ensures var credit := Credit(b.refillPerSecond, to - from);
            && granted as real <= early as real + Cap(b) + credit && early as real <= b.tokens
            && (early == 0 || lifted == 0 ==> granted as real <= Cap(b) + credit)
  {
    hide Credit;
    CreditIsNonNegative(b.refillPerSecond, to - from);
    if s.lastRefill >= from {
      CreditSplit(b.refillPerSecond, from, s.lastRefill, to);
      CreditIsNonNegative(b.refillPerSecond, to - s.lastRefill);
    }
  }

  lemma ExtraBuckets(b: Bucket, lifted: nat)
    ensures Cap(b) + (if lifted > 0 then Cap(b) else 0.0) <= ManyBuckets(b, lifted)
  {
    if lifted > 0 {
      var extra := (lifted - 1) as real;
      assert (1 + lifted) as real == 2.0 + extra;
      assert (2.0 + extra) * Cap(b) == Cap(b) + Cap(b) + extra * Cap(b);
      assert extra * Cap(b) >= 0.0;
    }
  }

  /** One full bucket and another for every pause lifted. */
  function ManyBuckets(b: Bucket, lifted: nat): real {
    (1 + lifted) as real * Cap(b)
  }

  /** Early grants are made under a pause: an acquire that finds none refills at once. */
  lemma {:induction false} EarlyNeedsPause(b: Bucket, ops: seq<Op>, from: real, to: real)
    requires Within(ops, from, to)
    requires forall i | 0 <= i < |ops| && ops[i].Acquire? && Paused(Run(b, ops[..i]), ops[i].at) ::
               !Grants(Run(b, ops[..i]), ops[i].cost, ops[i].at) || Run(b, ops[..i]).lastRefill >= from
    ensures Early(b, ops, from) == 0
    decreases |ops|
  {
    hide Grants;
    if ops != [] {
      var earlier, op := ops[..|ops| - 1], ops[|ops| - 1];
      forall i | 0 <= i < |earlier| && earlier[i].Acquire? && Paused(Run(b, earlier[..i]), earlier[i].at)
        ensures !Grants(Run(b, earlier[..i]), earlier[i].cost, earlier[i].at) || Run(b, earlier[..i]).lastRefill >= from
      {
        assert earlier[..i] == ops[..i];
      }
      EarlyNeedsPause(b, earlier, from, to);
    }
  }

  ghost predicate Interval(b: Bucket, ops: seq<Op>, from: real, to: real) {
    Sound(b) && b.lastRefill <= from <= to && Within(ops, from, to)
  }

  /** Spend part of a full bucket halfway through a pause that lasts until it is earned back, then all of it. */
  function PausedBucket(capacity: nat, rate: nat, early: nat): Bucket
    requires rate >= 1
  {
    Bucket(capacity, rate, capacity as real, 0.0, Some(early as real / rate as real))
  }

  function PausedRun(capacity: nat, rate: nat, early: nat): seq<Op>
    requires rate >= 1
  {
    var lifted := early as real / rate as real;
    [Acquire(early, lifted / 2.0), Acquire(capacity, lifted)]
  }

  /** For every capacity, rate and early amount up to the capacity this run grants both in full, over the bound. */
  lemma PauseBreaksTextbook(capacity: nat, rate: nat, early: nat)
    requires 1 <= early <= capacity && rate >= 1
    ensures var b, ops, lifted := PausedBucket(capacity, rate, early), PausedRun(capacity, rate, early), early as real / rate as real;
            && Interval(b, ops, lifted / 2.0, lifted) && !Textbook(b, ops, lifted / 2.0, lifted)
            && Early(b, ops, lifted / 2.0) == early && Granted(b, ops) == early + capacity
  {
    var b, ops, lifted := PausedBucket(capacity, rate, early), PausedRun(capacity, rate, early), early as real / rate as real;
    hide Credit;
    QuotientIsPositive(early as real, rate as real);
    EarningTime(rate, early as real);
    var s := b.(tokens := (capacity - early) as real);
    assert lifted - 0.0 == lifted && lifted - lifted / 2.0 == lifted / 2.0;
    assert AfterAcquire(b, early, lifted / 2.0) == s && Grants(b, early, lifted / 2.0);
    assert Refilled(s, lifted).tokens == Cap(b) && Grants(s, capacity, lifted);
    TwoOps(b, ops[0], ops[1], lifted / 2.0);
  }

  lemma TwoOps(b: Bucket, first: Op, second: Op, from: real)
    ensures var s := Apply(b, first);
            && Granted(b, [first, second]) == Paid(b, first) + Paid(s, second)
            && Early(b, [first, second], from) == EarlyPaid(b, first, from) + EarlyPaid(s, second, from)
  {
    hide Apply, Paid;
    var ops := [first, second];
    assert ops[..1] == [first] && [first][..0] == [];
    assert Run(b, []) == b && Run(b, [first]) == Apply(b, first);
    assert Granted(b, [first]) == Paid(b, first) && Early(b, [first], from) == EarlyPaid(b, first, from);
  }

  lemma NoRateNoTextbookBreak(b: Bucket, ops: seq<Op>, from: real, to: real)
    requires Interval(b, ops, from, to) && (b.capacity == 0 || b.refillPerSecond == 0)
    ensures Textbook(b, ops, from, to)
  {
    hide Credit;
    if b.capacity == 0 {
      GrantsBounded(b, ops, from, to);
    } else {
      SpendsStored(b, ops);
      CreditIsNonNegative(b.refillPerSecond, to - from);
    }
  }

  /** A bucket that never refills grants what it stores. */
  lemma {:induction false} SpendsStored(b: Bucket, ops: seq<Op>)
    requires Sound(b) && b.refillPerSecond == 0
    ensures var s := Run(b, ops);
            s.refillPerSecond == 0 && s.capacity == b.capacity && Sound(s) && Granted(b, ops) as real + s.tokens <= b.tokens
    decreases |ops|
  {
    if ops != [] {
      SpendsStored(b, ops[..|ops| - 1]);
    }
  }

  /** The textbook bound holds in every interval of every run exactly for buckets that hold nothing or never refill. */
  lemma TextbookBoundIsExact(capacity: nat, rate: nat)
    ensures (forall b: Bucket, ops, from, to | b.capacity == capacity && b.refillPerSecond == rate && Interval(b, ops, from, to) ::
               Textbook(b, ops, from, to)) <==> capacity == 0 || rate == 0
  {
    if capacity == 0 || rate == 0 {
      forall b: Bucket, ops, from, to | b.capacity == capacity && b.refillPerSecond == rate && Interval(b, ops, from, to)
        ensures Textbook(b, ops, from, to)
      {
        NoRateNoTextbookBreak(b, ops, from, to);
      }
    } else {
      PauseBreaksTextbook(capacity, rate, 1);
      var lifted := 1.0 / rate as real;
      var b, ops := PausedBucket(capacity, rate, 1), PausedRun(capacity, rate, 1);
      assert Interval(b, ops, lifted / 2.0, lifted) && !Textbook(b, ops, lifted / 2.0, lifted);
    }
  }

  /** Reading the token count is invisible to every later operation. */
  lemma PeekIsInvisible(b: Bucket, at: real, later: real)
    requires b.lastRefill <= at <= later && b.tokens <= Cap(b)
    ensures Refilled(Refilled(b, at), later) == Refilled(b, later)
  {
    hide Credit;
    CreditSplit(b.refillPerSecond, b.lastRefill, at, later);
    CreditIsNonNegative(b.refillPerSecond, later - at);
  }

  // ----- Waiting -----

  /** When a refused caller who is alone would next be served, in closed form. */
  lemma NextGrant(b: Bucket, cost: nat, now: real, later: real)
    requires Sound(b) && b.lastRefill <= now <= later && !Grants(b, cost, now)
    ensures var r := Refilled(b, now);
            Grants(AfterAcquire(b, cost, now), cost, later) <==>
              && cost <= b.capacity
              && !Paused(r, later)
              && Credit(b.refillPerSecond, later - r.lastRefill) >= cost as real - r.tokens
  {
    hide Credit;
    RefillGain(b, now);
    var r := Refilled(b, now);
    NoTimeNoCredit(b.refillPerSecond);
  }

  /**
    * Sleeping for the returned duration, or longer, is enough exactly when the cost fits the bucket
    * and the rate is at least one, whether the bucket is paused or not.
    */
  lemma WaitSuffices(b: Bucket, cost: nat, now: real, later: real)
    requires Sound(b) && b.lastRefill <= now && !Grants(b, cost, now)
    requires later >= now + WaitFor(b, cost, now)
    ensures Grants(AfterAcquire(b, cost, now), cost, later) <==> cost <= b.capacity && b.refillPerSecond >= 1
  {
    hide Credit;
    RefillGain(b, now);
    var r := Refilled(b, now);
    var deficit := cost as real - r.tokens;
    QuotientIsPositive(deficit, Max(b.refillPerSecond as real, 0.001));
    NextGrant(b, cost, now, later);
    EarnedBy(b.refillPerSecond, deficit, later - r.lastRefill);
  }

  /** Outside a pause the returned duration is the shortest one that helps. */
  lemma WaitIsMinimal(b: Bucket, cost: nat, now: real, later: real)
    requires Sound(b) && b.lastRefill <= now <= later && !Grants(b, cost, now)
    requires !Paused(b, now) && b.refillPerSecond >= 1 && later < now + WaitFor(b, cost, now)
    ensures !Grants(AfterAcquire(b, cost, now), cost, later)
  {
    hide Credit;
    NextGrant(b, cost, now, later);
    var r := Refilled(b, now);
    EarnedBy(b.refillPerSecond, cost as real - r.tokens, later - r.lastRefill);
  }

  /**
    * The returned wait is exact, paused or not: it is the least span that reaches past the pause and earns
    * what is missing by itself.
    */
  lemma WaitIsExact(b: Bucket, cost: nat, now: real, span: real)
    requires Sound(b) && b.lastRefill <= now && !Grants(b, cost, now) && b.refillPerSecond >= 1 && span >= 0.0
    ensures span >= WaitFor(b, cost, now) <==>
              !Paused(Refilled(b, now), now + span) && Credit(b.refillPerSecond, span) >= cost as real - Refilled(b, now).tokens
  {
    hide Credit;
    RefillGain(b, now);
    EarnedBy(b.refillPerSecond, cost as real - Refilled(b, now).tokens, span);
  }

  // ----- Bursts -----

  /** How many acquires were granted. */
  function Served(b: Bucket, ops: seq<Op>): nat {
    if ops == [] then 0
    else
      var before, op := Run(b, ops[..|ops| - 1]), ops[|ops| - 1];
      Served(b, ops[..|ops| - 1]) + if op.Acquire? && Grants(before, op.cost, op.at) then 1 else 0
  }

  /** `n` acquires at one moment. */
  function Burst(cost: nat, at: real, n: nat): seq<Op> {
    if n == 0 then [] else Burst(cost, at, n - 1) + [Acquire(cost, at)]
  }

  /** How many of `n` requests fit the capacity. */
  function Fitting(capacity: nat, cost: nat, n: nat): nat
    requires cost >= 1
  {
    if n <= capacity / cost then n else capacity / cost
  }

  function Total(cost: nat, n: nat): nat { cost * n }

  lemma TotalNext(cost: nat, n: nat)
    ensures Total(cost, n + 1) == Total(cost, n) + cost && Total(cost, 0) == 0
  {
  }

  lemma TotalMonotone(cost: nat, m: nat, n: nat)
    requires m <= n
    ensures Total(cost, m) <= Total(cost, n)
  {
    assert Total(cost, n) == Total(cost, m) + cost * (n - m);
  }

  lemma FittingFits(capacity: nat, cost: nat, n: nat)
    requires cost >= 1
    ensures Total(cost, Fitting(capacity, cost, n)) <= capacity
    ensures Total(cost, Fitting(capacity, cost, n) + 1) <= capacity <==> n < capacity / cost
  {
    hide Total;
    var q, m := capacity / cost, Fitting(capacity, cost, n);
    WholeQuotient(capacity, cost);
    TotalMonotone(cost, m, q);
    TotalNext(cost, q);
    if m < q {
      TotalMonotone(cost, m + 1, q);
    }
  }

  lemma WholeQuotient(capacity: nat, cost: nat)
    requires cost >= 1
    ensures Total(cost, capacity / cost) <= capacity < Total(cost, capacity / cost) + cost
  {
    assert capacity == cost * (capacity / cost) + capacity % cost;
  }

  /** A full bucket serves a burst of equal requests exactly as far as they fit. */
  lemma {:induction false} BurstIsExact(b: Bucket, cost: nat, at: real, n: nat)
    requires cost >= 1 && b.tokens == Cap(b) && b.pauseUntil.None? && b.lastRefill <= at
    ensures var s, spent := Run(b, Burst(cost, at, n)), Total(cost, Fitting(b.capacity, cost, n));
            && Granted(b, Burst(cost, at, n)) == spent && spent <= b.capacity
            && Served(b, Burst(cost, at, n)) == Fitting(b.capacity, cost, n)
            && s == b.(tokens := (b.capacity - spent) as real, lastRefill := if n == 0 then b.lastRefill else at)
  {
    hide Credit, Fitting, Total;
    FittingFits(b.capacity, cost, n);
    if n == 0 {
      NoneFitting(b.capacity, cost);
      TotalNext(cost, 0);
    } else {
      BurstIsExact(b, cost, at, n - 1);
      FittingFits(b.capacity, cost, n - 1);
      OneMoreFitting(b.capacity, cost, n - 1);
      TotalNext(cost, Fitting(b.capacity, cost, n - 1));
      var before, ops := Burst(cost, at, n - 1), Burst(cost, at, n);
      assert ops[..|ops| - 1] == before && ops[|ops| - 1] == Acquire(cost, at);
      NextOfBurst(Run(b, before), cost, at);
    }
  }

  /** A bucket that is full or refilled this very moment has what it has. */
  lemma NextOfBurst(s: Bucket, cost: nat, at: real)
    requires s.pauseUntil.None? && (s.lastRefill == at || (s.lastRefill <= at && s.tokens == Cap(s)))
    ensures Grants(s, cost, at) <==> s.tokens >= cost as real
    ensures AfterAcquire(s, cost, at) == s.(lastRefill := at, tokens := if s.tokens >= cost as real then s.tokens - cost as real else s.tokens)
  {
    hide Credit;
    CreditIsNonNegative(s.refillPerSecond, at - s.lastRefill);
  }

  lemma NoneFitting(capacity: nat, cost: nat)
    requires cost >= 1
    ensures Fitting(capacity, cost, 0) == 0
  {
  }

  lemma OneMoreFitting(capacity: nat, cost: nat, n: nat)
    requires cost >= 1
    ensures Fitting(capacity, cost, n + 1) == Fitting(capacity, cost, n) + if n < capacity / cost then 1 else 0
  {
  }

  function WeightOf(route: string): RouteWeight {
    match route
    case "trenches" => Heavy
    case "trending" => Heavy
    case "signal" => VeryHeavy
    case "smartmoney" => VeryHeavy
    case "kol" => VeryHeavy
    case "info" => Light
    case "security" => Light
    case "stats" => Heavy
    case "profits" => Heavy
    case _ => Standard
  }

  /** How many requests of a route a full bucket of the default capacity serves at one moment. */
  lemma RouteBursts(b: Bucket, at: real, n: nat, route: string)
    requires b.capacity == 20 && b.tokens == 20.0 && b.pauseUntil.None? && b.lastRefill <= at && n >= 20
    ensures Served(b, Burst(Cost(WeightOf(route)), at, n)) ==
            if route in {"info", "security"} then 20
            else if route in {"trenches", "trending", "stats", "profits"} then 6
            else if route in {"signal", "smartmoney", "kol"} then 4
            else 10
  {
    hide Granted, Burst, Served;
    BurstIsExact(b, Cost(WeightOf(route)), at, n);
  }

  /** Every route is served after its wait when the bucket can hold the dearest one; otherwise that route never is. */
  lemma RoutesAreServed(b: Bucket, w: RouteWeight, now: real, later: real)
    requires Sound(b) && b.lastRefill <= now && b.refillPerSecond >= 1
    requires later >= now && (!Grants(b, Cost(w), now) ==> later >= now + WaitFor(b, Cost(w), now))
    ensures b.capacity >= Cost(VeryHeavy) ==>
              Grants(b, Cost(w), now) || Grants(AfterAcquire(b, Cost(w), now), Cost(w), later)
    ensures b.capacity < Cost(VeryHeavy) && w == VeryHeavy ==>
              !Grants(b, Cost(w), now) && !Grants(AfterAcquire(b, Cost(w), now), Cost(w), later)
  {
    hide Credit;
    RefillGain(b, now);
    if !Grants(b, Cost(w), now) {
      WaitSuffices(b, Cost(w), now, later);
    }
  }
}
