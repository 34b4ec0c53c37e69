/** One Helius key: token buckets per API class, cooldown and circuit breaker (src/helius.rs). */
module ProviderKeys {
  import opened TokenAccount
  import opened Util

  datatype ApiClass = Rpc | Enhanced | Wallet

  /** Capacity equals the rate: one second of tokens. */
  datatype Bucket = Bucket(rate: nat, tokens: real, lastRefill: real)

  function Cap(b: Bucket): real { b.rate as real }

  predicate Sound(b: Bucket) {
    0.0 <= b.tokens <= Cap(b)
  }

  function Refilled(b: Bucket, now: real): Bucket {
    if now > b.lastRefill
    then b.(tokens := Min(b.tokens + Credit(b.rate, now - b.lastRefill), Cap(b)), lastRefill := now)
    else b
  }

  predicate HasToken(b: Bucket, now: real) {
    Refilled(b, now).tokens >= 1.0
  }

  function AfterAcquire(b: Bucket, now: real): Bucket {
    var r := Refilled(b, now);
    if HasToken(b, now) then r.(tokens := r.tokens - 1.0) else r
  }

  function WaitFor(b: Bucket, now: real): real {
    (1.0 - Refilled(b, now).tokens) / Max(Cap(b), 0.001)
  }

  class TokenBucket {
    const rate: nat
    var tokens: real
    var lastRefill: real

    constructor (rate: nat, now: real)
      ensures State() == Bucket(rate, rate as real, now)
    {
      this.rate, tokens, lastRefill := rate, rate as real, now;
    }

    function State(): Bucket
      reads this
    {
      Bucket(rate, tokens, lastRefill)
    }

    method Refill(now: real)
      modifies this
      ensures State() == Refilled(old(State()), now)
    {
      var elapsed := now - lastRefill;
      if elapsed > 0.0 {
        var grown := tokens + elapsed * rate as real;
        tokens := if grown <= rate as real then grown else rate as real;
        lastRefill := now;
      }
    }

    method TryAcquire(now: real) returns (wait: Option<real>)
      modifies this
      ensures State() == AfterAcquire(old(State()), now)
      ensures wait == if HasToken(old(State()), now) then None else Some(WaitFor(old(State()), now))
    {
      Refill(now);
      if tokens >= 1.0 {
        tokens := tokens - 1.0;
        return None;
      }
      var deficit := 1.0 - tokens;
      wait := Some(deficit / if rate as real >= 0.001 then rate as real else 0.001);
    }
  }

  const BREAKER_SECONDS := 60.0

  datatype Key = Key(rpc: Bucket, enhanced: Bucket, wallet: Bucket,
                     cooldownUntil: Option<real>, failures: nat, openUntil: Option<real>)

  function BucketOf(k: Key, c: ApiClass): Bucket {
    match c case Rpc => k.rpc case Enhanced => k.enhanced case Wallet => k.wallet
  }

  function WithBucket(k: Key, c: ApiClass, b: Bucket): Key {
    match c case Rpc => k.(rpc := b) case Enhanced => k.(enhanced := b) case Wallet => k.(wallet := b)
  }

  predicate Until(t: Option<real>, now: real) {
    t.Some? && now < t.value
  }

  predicate Available(k: Key, now: real) {
    !Until(k.cooldownUntil, now) && !Until(k.openUntil, now)
  }

  predicate Grants(k: Key, c: ApiClass, now: real) {
    Available(k, now) && HasToken(BucketOf(k, c), now)
  }

  /** A cooling or open key answers with the remaining time and leaves its buckets alone. */
  function KeyWait(k: Key, c: ApiClass, now: real): real {
    if Until(k.cooldownUntil, now) then k.cooldownUntil.value - now
    else if Until(k.openUntil, now) then k.openUntil.value - now
    else WaitFor(BucketOf(k, c), now)
  }

  function KeyAfter(k: Key, c: ApiClass, now: real): Key {
    if Available(k, now) then WithBucket(k, c, AfterAcquire(BucketOf(k, c), now)) else k
  }

  function AfterFailure(k: Key, threshold: nat, now: real): Key {
    if k.failures + 1 >= threshold then k.(failures := 0, openUntil := Some(now + BREAKER_SECONDS))
    else k.(failures := k.failures + 1)
  }

  class ProviderKey {
    const rpc: TokenBucket
    const enhanced: TokenBucket
    const wallet: TokenBucket
    var cooldownUntil: Option<real>
    var consecutiveFailures: nat
    var openUntil: Option<real>

    ghost predicate Valid() {
      rpc != enhanced && rpc != wallet && enhanced != wallet
    }

    ghost function Cells(): set<TokenBucket> { {rpc, enhanced, wallet} }

    ghost function State(): Key
      reads this, Cells()
    {
      Key(rpc.State(), enhanced.State(), wallet.State(), cooldownUntil, consecutiveFailures, openUntil)
    }

    constructor (rpcRate: nat, enhancedRate: nat, walletRate: nat, now: real)
      ensures Valid() && fresh(Cells())
      ensures State() == Key(Bucket(rpcRate, rpcRate as real, now), Bucket(enhancedRate, enhancedRate as real, now),
                             Bucket(walletRate, walletRate as real, now), None, 0, None)
    {
      rpc := new TokenBucket(rpcRate, now);
      enhanced := new TokenBucket(enhancedRate, now);
      wallet := new TokenBucket(walletRate, now);
      cooldownUntil, consecutiveFailures, openUntil := None, 0, None;
    }

    method IsAvailable(now: real) returns (available: bool)
      ensures available == Available(State(), now)
    {
      if cooldownUntil.Some? && now < cooldownUntil.value {
        return false;
      }
      if openUntil.Some? && now < openUntil.value {
        return false;
      }
      available := true;
    }

    method TryAcquire(c: ApiClass, now: real) returns (wait: Option<real>)
      requires Valid()
      modifies Cells()
      ensures State() == KeyAfter(old(State()), c, now) == Apply(old(State()), Acquire(c, now))
      ensures wait == if Grants(old(State()), c, now) then None else Some(KeyWait(old(State()), c, now))
    {
      if cooldownUntil.Some? && now < cooldownUntil.value {
        return Some(cooldownUntil.value - now);
      }
      if openUntil.Some? && now < openUntil.value {
        return Some(openUntil.value - now);
      }
      match c {
        case Rpc => wait := rpc.TryAcquire(now);
        case Enhanced => wait := enhanced.TryAcquire(now);
        case Wallet => wait := wallet.TryAcquire(now);
      }
    }

    method RecordSuccess()
      modifies this
      ensures State() == old(State()).(failures := 0, openUntil := None)
    {
      consecutiveFailures, openUntil := 0, None;
    }

    method RecordFailure(threshold: nat, now: real)
      modifies this
      ensures State() == AfterFailure(old(State()), threshold, now) == Apply(old(State()), Failed(threshold, now))
    {
      var failures := consecutiveFailures + 1;
      consecutiveFailures := failures;
      if failures >= threshold {
        openUntil := Some(now + BREAKER_SECONDS);
        consecutiveFailures := 0;
      }
    }

    method ApplyCooldown(duration: real, now: real)
      modifies this
      ensures State() == old(State()).(cooldownUntil := Some(now + duration)) == Apply(old(State()), Cooldown(duration, now))
    {
      cooldownUntil := Some(now + duration);
    }
  }

  // ----- One bucket -----

  lemma RefillGain(b: Bucket, now: real)
    requires Sound(b)
    ensures var r := Refilled(b, now);
            && Sound(r) && r.rate == b.rate && b.tokens <= r.tokens
            && r.lastRefill == Max(b.lastRefill, now)
            && r.tokens <= b.tokens + Credit(b.rate, r.lastRefill - b.lastRefill)
  {
    hide Credit;
    CreditIsNonNegative(b.rate, Max(b.lastRefill, now) - b.lastRefill);
    NoTimeNoCredit(b.rate);
  }

  /** A refused caller who is alone is served after the returned wait exactly when the rate is at least one. */
  lemma WaitSuffices(b: Bucket, now: real, later: real)
    requires Sound(b) && b.lastRefill <= now && !HasToken(b, now) && later >= now + WaitFor(b, now)
    ensures HasToken(AfterAcquire(b, now), later) <==> b.rate >= 1
  {
    hide Credit;
    RefillGain(b, now);
    var r := Refilled(b, now);
    var deficit := 1.0 - r.tokens;
    QuotientIsPositive(deficit, Max(Cap(b), 0.001));
    RefillGain(r, later);
    EarnedBy(b.rate, deficit, later - now);
  }

  /** The returned wait is exact: a refused caller who is alone is served from then on and not before. */
  lemma WaitIsExact(b: Bucket, now: real, later: real)
    requires Sound(b) && b.lastRefill <= now <= later && !HasToken(b, now)
    ensures HasToken(AfterAcquire(b, now), later) <==> b.rate >= 1 && later >= now + WaitFor(b, now)
  {
    hide Credit;
    RefillGain(b, now);
    var r := Refilled(b, now);
    RefillGain(r, later);
    NoTimeNoCredit(b.rate);
    EarnedBy(b.rate, 1.0 - r.tokens, later - now);
  }

  /**
    * What a refused caller is told: the end of the cooldown to the moment, else the end of the breaker's
    * opening to the moment, else the wait of the bucket.
    */
  lemma KeyWaitIsExact(k: Key, c: ApiClass, now: real, later: real)
    requires now <= later
    ensures k.cooldownUntil.Some? && now < k.cooldownUntil.value ==>
              (later >= now + KeyWait(k, c, now) <==> later >= k.cooldownUntil.value)
    ensures !Until(k.cooldownUntil, now) && k.openUntil.Some? && now < k.openUntil.value ==>
              (later >= now + KeyWait(k, c, now) <==> Available(k, later))
    ensures Available(k, now) ==> KeyWait(k, c, now) == WaitFor(BucketOf(k, c), now)
  {
  }

  // ----- Grants of one key and class over an interval -----

  datatype Op =
    | Acquire(class_: ApiClass, at: real)
    | Cooldown(duration: real, at: real)
    | Succeeded(at: real)
    | Failed(threshold: nat, at: real)

  function Apply(k: Key, op: Op): Key {
    match op
    case Acquire(c, at) => KeyAfter(k, c, at)
    case Cooldown(duration, at) => k.(cooldownUntil := Some(at + duration))
    case Succeeded(_) => k.(failures := 0, openUntil := None)
    case Failed(threshold, at) => AfterFailure(k, threshold, at)
  }

  function Run(k: Key, ops: seq<Op>): Key {
    if ops == [] then k else Apply(Run(k, ops[..|ops| - 1]), ops[|ops| - 1])
  }

  function Paid(k: Key, c: ApiClass, op: Op): nat {
    if op.Acquire? && op.class_ == c && Grants(k, c, op.at) then 1 else 0
  }

  function Granted(k: Key, c: ApiClass, ops: seq<Op>): nat {
    if ops == [] then 0
    else Granted(k, c, ops[..|ops| - 1]) + Paid(Run(k, ops[..|ops| - 1]), c, ops[|ops| - 1])
  }

  ghost predicate Within(ops: seq<Op>, from: real, to: real) {
    && (forall i | 0 <= i < |ops| :: from <= ops[i].at <= to)
    && (forall i, j | 0 <= i < j < |ops| :: ops[i].at <= ops[j].at)
  }

  /** The class's bucket and what it has granted since `from`. */
  ghost predicate Budget(b: Bucket, s: Bucket, granted: nat, from: real) {
    && Sound(s) && s.rate == b.rate
    && if s.lastRefill >= from then granted as real + s.tokens <= Cap(b) + Credit(b.rate, s.lastRefill - from)
       else granted == 0
  }

  lemma BudgetStep(b: Bucket, s: Bucket, now: real, granted: nat, from: real)
    requires Budget(b, s, granted, from) && from <= now && s.lastRefill <= now
    ensures Budget(b, AfterAcquire(s, now), granted + (if HasToken(s, now) then 1 else 0), from)
    ensures AfterAcquire(s, now).lastRefill <= now
  {
    hide Credit;
    var r := Refilled(s, now);
    RefillGain(s, now);
    if s.lastRefill >= from {
      CreditSplit(b.rate, from, s.lastRefill, r.lastRefill);
    } else {
      CreditIsNonNegative(b.rate, now - from);
    }
  }

  /** A success resets the count and closes the breaker whenever it comes; it ends no cooldown. */
  lemma SuccessHeals(k: Key, at: real)
    ensures var after := Apply(k, Succeeded(at));
            after.failures == 0 && after.openUntil.None? && after == k.(failures := after.failures, openUntil := after.openUntil)
  {
  }

  /** An operation on one class leaves the buckets of the others exactly as they were. */
  lemma ClassesAreIndependent(k: Key, op: Op, c: ApiClass)
    ensures BucketOf(Apply(k, op), c) ==
            if op.Acquire? && op.class_ == c && Available(k, op.at) then AfterAcquire(BucketOf(k, c), op.at) else BucketOf(k, c)
  {
  }

  lemma {:induction false} BudgetHolds(k: Key, c: ApiClass, ops: seq<Op>, from: real, to: real)
    requires Sound(BucketOf(k, c)) && BucketOf(k, c).lastRefill <= from && Within(ops, from, to)
    ensures Budget(BucketOf(k, c), BucketOf(Run(k, ops), c), Granted(k, c, ops), from)
    ensures BucketOf(Run(k, ops), c).lastRefill <= if ops == [] then from else ops[|ops| - 1].at
    decreases |ops|
  {
    hide Credit, AfterAcquire, HasToken;
    var b := BucketOf(k, c);
    if ops == [] {
      NoTimeNoCredit(b.rate);
    } else {
      var earlier, op := ops[..|ops| - 1], ops[|ops| - 1];
      BudgetHolds(k, c, earlier, from, to);
      var s := Run(k, earlier);
      ClassesAreIndependent(s, op, c);
      BudgetStep(b, BucketOf(s, c), op.at, Granted(k, c, earlier), from);
    }
  }

  /** In any interval a key grants one class at most its rate plus the rate times the length. */
  lemma {:induction false} GrantsBounded(k: Key, c: ApiClass, ops: seq<Op>, from: real, to: real)
    requires Sound(BucketOf(k, c)) && BucketOf(k, c).lastRefill <= from <= to && Within(ops, from, to)
    ensures Sound(BucketOf(Run(k, ops), c))
    ensures Granted(k, c, ops) as real <= Cap(BucketOf(k, c)) + Credit(BucketOf(k, c).rate, to - from)
  {
    hide Credit;
    BudgetHolds(k, c, ops, from, to);
    var b, s := BucketOf(k, c), BucketOf(Run(k, ops), c);
    CreditIsNonNegative(b.rate, to - from);
    if s.lastRefill >= from {
      CreditSplit(b.rate, from, s.lastRefill, to);
      CreditIsNonNegative(b.rate, to - s.lastRefill);
    }
  }

  // ----- Circuit breaker -----

  /** `times` failures in a row, all reported with one threshold. */
  function FailedTimes(k: Key, threshold: nat, times: seq<real>): Key {
    if times == [] then k else AfterFailure(FailedTimes(k, threshold, times[..|times| - 1]), threshold, times[|times| - 1])
  }

  /**
    * From a closed breaker, failures in a row open it at every multiple of the threshold, counting
    * restarts there, and the last opening is the one in force. A threshold of zero acts as one.
    */
  lemma {:induction false} BreakerOpensAtMultiples(k: Key, threshold: nat, times: seq<real>)
    requires k.failures == 0 && k.openUntil.None?
    ensures var after, period := FailedTimes(k, threshold, times), if threshold == 0 then 1 else threshold;
            && after.failures == |times| % period
            && (after.openUntil.None? <==> |times| < period)
            && (|times| >= period ==>
                  after.openUntil == Some(times[|times| - |times| % period - 1] + BREAKER_SECONDS))
    decreases |times|
  {
    if times != [] {
      BreakerOpensAtMultiples(k, threshold, times[..|times| - 1]);
      NextRemainder(|times| - 1, if threshold == 0 then 1 else threshold);
    }
  }

  lemma NextRemainder(n: nat, t: nat)
    requires t >= 1
    ensures (n + 1) % t == if n % t + 1 == t then 0 else n % t + 1
  {
    var q, r := n / t, n % t;
    assert n == q * t + r;
    if r + 1 == t {
      assert n + 1 == (q + 1) * t;
      RemainderOf(n + 1, t, q + 1, 0);
    } else {
      RemainderOf(n + 1, t, q, r + 1);
    }
  }
}
