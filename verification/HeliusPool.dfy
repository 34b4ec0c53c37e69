/** Fair selection over the provider keys and the bounded retry loop (src/helius.rs). */
module HeliusPool {
  import opened TokenAccount
  import opened Util
  import opened ProviderKeys

  /** The round-robin cursor is a 64-bit counter that wraps, and so is the sum it is used in. */
  const CURSOR_RANGE: nat := 0x1_0000_0000_0000_0000

  function KeyIndex(start: nat, offset: nat, count: nat): (i: nat)
    requires count > 0
    ensures i < count
  {
    ((start + offset) % CURSOR_RANGE) % count
  }

  datatype Outcome =
    | NoProviders
    | Granted(key: nat)
    | WaitFor(key: nat, wait: real)
    | Unavailable(wait: real)

  /** The better of two refusals: the earlier one wins a tie. */
  function BetterWait(best: Option<(nat, real)>, i: nat, wait: real): (r: Option<(nat, real)>)
    ensures r.Some? && (r == best || r.value == (i, wait))
  {
    if best.None? || wait < best.value.1 then Some((i, wait)) else best
  }

  /** The keys after looking at those from `offset` on, with the granted key or the best refusal. */
  function Scan(keys: seq<Key>, c: ApiClass, now: real, start: nat, offset: nat, best: Option<(nat, real)>)
    : (r: (Option<nat>, Option<(nat, real)>, seq<Key>))
    requires keys != [] && offset <= |keys| && (best.Some? ==> best.value.0 < |keys|)
    ensures |r.2| == |keys| && (r.0.Some? ==> r.0.value < |keys|) && (r.1.Some? ==> r.1.value.0 < |keys|)
    decreases |keys| - offset
  {
    if offset == |keys| then (None, best, keys)
    else
      var i := KeyIndex(start, offset, |keys|);
      if !Available(keys[i], now) then Scan(keys, c, now, start, offset + 1, best)
      else
        var after := keys[i := KeyAfter(keys[i], c, now)];
        if Grants(keys[i], c, now) then (Some(i), best, after)
        else Scan(after, c, now, start, offset + 1, BetterWait(best, i, KeyWait(keys[i], c, now)))
  }

  /** The sweep over all keys when the scan found none available. */
  function Sweep(keys: seq<Key>, c: ApiClass, now: real, upTo: nat): (r: (Option<real>, seq<Key>))
    requires upTo <= |keys|
    ensures |r.1| == |keys|
  {
    if upTo == 0 then (None, keys)
    else
      var (shortest, before) := Sweep(keys, c, now, upTo - 1);
      var k := before[upTo - 1];
      var wait := KeyWait(k, c, now);
      (if Grants(k, c, now) then shortest
       else if shortest.None? || wait < shortest.value then Some(wait)
       else shortest,
       before[upTo - 1 := KeyAfter(k, c, now)])
  }

  function Picked(keys: seq<Key>, c: ApiClass, now: real, start: nat): (r: (Outcome, seq<Key>))
    ensures |r.1| == |keys| && (r.0.Granted? || r.0.WaitFor? ==> r.0.key < |keys|)
  {
    if keys == [] then (NoProviders, keys)
    else
      var (granted, best, after) := Scan(keys, c, now, start, 0, None);
      match granted
      case Some(i) => (Granted(i), after)
      case None =>
        match best
        case Some((i, wait)) => (WaitFor(i, wait), after)
        case None =>
          var (shortest, swept) := Sweep(after, c, now, |after|);
          (Unavailable(if shortest.Some? then shortest.value else 0.5), swept)
  }

  // ----- One request and its retries -----

  /** What comes back for one send; an unreadable body and an RPC error both come with a success status. */
  datatype Reply =
    | Success
    | DecodeError
    | RpcError
    | RateLimited(retryAfter: Option<real>)
    | AuthError
    | ValidationError
    | ServerError
    | NetworkError

  predicate Retried(reply: Reply) {
    reply.RateLimited? || reply.ServerError? || reply.NetworkError?
  }

  const DEFAULT_COOLDOWN := 1.0
  const LONGEST_COOLDOWN := 60.0

  function CooldownOf(retryAfter: Option<real>): real {
    Min(if retryAfter.Some? then retryAfter.value else DEFAULT_COOLDOWN, LONGEST_COOLDOWN)
  }

  function AfterSuccess(k: Key): Key {
    k.(failures := 0, openUntil := None)
  }

  /** What a reply does to the key that was used. */
  function AfterReply(k: Key, reply: Reply, maxRetries: nat, at: real): Key {
    match reply
    case Success => AfterSuccess(k)
    case DecodeError => AfterSuccess(k)
    case RpcError => AfterFailure(AfterSuccess(k), maxRetries, at)
    case RateLimited(retryAfter) => k.(cooldownUntil := Some(at + CooldownOf(retryAfter)))
    case AuthError => AfterFailure(k, 3, at)
    case ValidationError => AfterFailure(k, 3, at)
    case ServerError => AfterFailure(k, maxRetries, at)
    case NetworkError => AfterFailure(k, maxRetries, at)
  }

  /** One attempt as the world lets it happen: when a key is picked, and what is answered when. */
  datatype Exchange = Exchange(pickedAt: real, reply: Reply, repliedAt: real)

  datatype Pool = Pool(keys: seq<Key>, next: nat)

  datatype End = NoKey(outcome: Outcome) | LastReply(reply: Reply)

  /** The key picked for an attempt, if any, and the pool after picking. */
  function PickedFor(p: Pool, c: ApiClass, now: real): (r: (Outcome, Pool))
    ensures |r.1.keys| == |p.keys| && (r.0.Granted? || r.0.WaitFor? ==> r.0.key < |p.keys|)
  {
    var (outcome, keys) := Picked(p.keys, c, now, p.next);
    (outcome, Pool(keys, if keys == [] then p.next else (p.next + 1) % CURSOR_RANGE))
  }

  function AfterExchange(p: Pool, key: nat, e: Exchange, maxRetries: nat): (q: Pool)
    requires key < |p.keys|
    ensures |q.keys| == |p.keys|
  {
    p.(keys := p.keys[key := AfterReply(p.keys[key], e.reply, maxRetries, e.repliedAt)])
  }

  /** The keys used from `attempt` on, how the request ends, and the pool it leaves. */
  function Requested(p: Pool, c: ApiClass, exchanges: seq<Exchange>, maxRetries: nat, attempt: nat): (seq<nat>, End, Pool)
    requires attempt <= maxRetries < |exchanges|
    decreases maxRetries - attempt
  {
    var e := exchanges[attempt];
    var (outcome, picked) := PickedFor(p, c, e.pickedAt);
    if outcome.NoProviders? || outcome.Unavailable? then ([], NoKey(outcome), picked)
    else
      var after := AfterExchange(picked, outcome.key, e, maxRetries);
      if !Retried(e.reply) || attempt == maxRetries then ([outcome.key], LastReply(e.reply), after)
      else
        var (used, end, final) := Requested(after, c, exchanges, maxRetries, attempt + 1);
        ([outcome.key] + used, end, final)
  }

  lemma OneAttempt(p: Pool, c: ApiClass, exchanges: seq<Exchange>, maxRetries: nat, attempt: nat)
    requires attempt <= maxRetries < |exchanges|
    ensures var e := exchanges[attempt];
            var (outcome, picked) := PickedFor(p, c, e.pickedAt);
            Requested(p, c, exchanges, maxRetries, attempt) ==
              if outcome.NoProviders? || outcome.Unavailable? then ([], NoKey(outcome), picked)
              else
                var after := AfterExchange(picked, outcome.key, e, maxRetries);
                if !Retried(e.reply) || attempt == maxRetries then ([outcome.key], LastReply(e.reply), after)
                else
                  var (used, end, final) := Requested(after, c, exchanges, maxRetries, attempt + 1);
                  ([outcome.key] + used, end, final)
  {
    hide AfterReply, Picked, Retried;
  }

  class HeliusPool {
    const providers: seq<ProviderKey>
    var next: nat

    ghost predicate Valid()
      reads this
    {
      && next < CURSOR_RANGE
      && (forall i | 0 <= i < |providers| :: providers[i].Valid())
      && (forall i, j | 0 <= i < j < |providers| :: providers[i] != providers[j] && providers[i].Cells() !! providers[j].Cells())
    }

    ghost function AllCells(): set<TokenBucket> {
      set i, b | 0 <= i < |providers| && b in providers[i].Cells() :: b
    }

    ghost function Keys(): (keys: seq<Key>)
      reads providers, AllCells()
      ensures |keys| == |providers|
    {
      seq(|providers|, i requires 0 <= i < |providers| reads providers, AllCells() => KeyAt(i))
    }

    ghost function KeyAt(i: nat): Key
      requires i < |providers|
      reads providers, AllCells()
    {
      assert providers[i].Cells() <= AllCells();
      providers[i].State()
    }

    constructor (providers: seq<ProviderKey>)
      requires forall i | 0 <= i < |providers| :: providers[i].Valid()
      requires forall i, j | 0 <= i < j < |providers| :: providers[i] != providers[j] && providers[i].Cells() !! providers[j].Cells()
      ensures Valid() && this.providers == providers && next == 0
    {
      this.providers, next := providers, 0;
    }

    /** One key's acquire, seen from the pool: that key moves and no other does. */
    method TryKey(i: nat, c: ApiClass, now: real) returns (wait: Option<real>)
      requires Valid() && i < |providers|
      modifies AllCells()
      ensures Valid() && Keys() == old(Keys())[i := KeyAfter(old(Keys())[i], c, now)]
      ensures wait == if Grants(old(Keys())[i], c, now) then None else Some(KeyWait(old(Keys())[i], c, now))
    {
      assert providers[i].Cells() <= AllCells();
      wait := providers[i].TryAcquire(c, now);
    }

    /** One turn of the scan: a key that is not available is passed over untouched. */
    method VisitKey(i: nat, c: ApiClass, now: real) returns (available: bool, wait: Option<real>)
      requires Valid() && i < |providers|
      modifies AllCells()
      ensures Valid() && available == Available(old(Keys())[i], now)
      ensures Keys() == if available then old(Keys())[i := KeyAfter(old(Keys())[i], c, now)] else old(Keys())
      ensures available ==> wait == if Grants(old(Keys())[i], c, now) then None else Some(KeyWait(old(Keys())[i], c, now))
    {
      hide KeyAfter, KeyWait, Available, Grants;
      available := providers[i].IsAvailable(now);
      assert available == Available(Keys()[i], now);
      wait := None;
      if available {
        wait := TryKey(i, c, now);
      }
    }

    method ScanKeys(c: ApiClass, now: real, start: nat) returns (granted: Option<nat>, best: Option<(nat, real)>)
      requires Valid() && providers != []
      modifies AllCells()
      ensures Valid() && (granted, best, Keys()) == Scan(old(Keys()), c, now, start, 0, None)
    {
      hide KeyAfter, KeyWait, Available, Grants, BetterWait, KeyIndex, Valid, AllCells, Keys;
      best := None;
      var offset := 0;
      while offset < |providers|
        invariant Valid() && offset <= |providers| && (best.Some? ==> best.value.0 < |providers|)
        invariant Scan(Keys(), c, now, start, offset, best) == Scan(old(Keys()), c, now, start, 0, None)
      {
        var i := KeyIndex(start, offset, |providers|);
        var available, wait := VisitKey(i, c, now);
        offset := offset + 1;
        if available && wait.None? {
          return Some(i), best;
        }
        if available {
          best := BetterWait(best, i, wait.value);
        }
      }
      granted := None;
    }

    method SweepKeys(c: ApiClass, now: real) returns (shortest: Option<real>)
      requires Valid()
      modifies AllCells()
      ensures Valid() && (shortest, Keys()) == Sweep(old(Keys()), c, now, |providers|)
    {
      hide KeyAfter, KeyWait, Available, Grants, Valid, AllCells, Keys;
      shortest := None;
      var i := 0;
      while i < |providers|
        invariant Valid() && i <= |providers|
        invariant (shortest, Keys()) == Sweep(old(Keys()), c, now, i)
      {
        var wait := TryKey(i, c, now);
        if wait.Some? && (shortest.None? || wait.value < shortest.value) {
          shortest := wait;
        }
        i := i + 1;
      }
    }

    method PickProvider(c: ApiClass, now: real) returns (outcome: Outcome)
      requires Valid()
      modifies this`next, AllCells()
      ensures Valid()
      ensures next == if providers == [] then old(next) else (old(next) + 1) % CURSOR_RANGE
      ensures (outcome, Keys()) == Picked(old(Keys()), c, now, old(next))
    {
      if |providers| == 0 {
        return NoProviders;
      }
      var start := next;
      next := (next + 1) % CURSOR_RANGE;
      var granted, best := ScanKeys(c, now, start);
      if granted.Some? {
        return Granted(granted.value);
      }
      if best.Some? {
        return WaitFor(best.value.0, best.value.1);
      }
      var shortest := SweepKeys(c, now);
      outcome := Unavailable(if shortest.Some? then shortest.value else 0.5);
    }

    ghost function State(): Pool
      reads this, providers, AllCells()
    {
      Pool(Keys(), next)
    }

    /** What the retry loop does with one reply: it reaches the used key and no other. */
    method Settle(i: nat, reply: Reply, maxRetries: nat, at: real)
      requires Valid() && i < |providers|
      modifies providers[i]
      ensures Valid() && Keys() == old(Keys())[i := AfterReply(old(Keys())[i], reply, maxRetries, at)]
    {
      match reply {
        case Success => providers[i].RecordSuccess();
        case DecodeError => providers[i].RecordSuccess();
        case RpcError =>
          providers[i].RecordSuccess();
          providers[i].RecordFailure(maxRetries, at);
        case RateLimited(retryAfter) =>
          providers[i].ApplyCooldown(CooldownOf(retryAfter), at);
        case AuthError => providers[i].RecordFailure(3, at);
        case ValidationError => providers[i].RecordFailure(3, at);
        case ServerError => providers[i].RecordFailure(maxRetries, at);
        case NetworkError => providers[i].RecordFailure(maxRetries, at);
      }
    }

    /** `exchanges[i]` says when attempt `i` picks its key and what it is answered. */
    method RequestJson(c: ApiClass, exchanges: seq<Exchange>, maxRetries: nat) returns (used: seq<nat>, end: End)
      requires Valid() && |exchanges| > maxRetries
      modifies this`next, providers, AllCells()
      ensures Valid() && (used, end, State()) == Requested(old(State()), c, exchanges, maxRetries, 0)
    {
      hide AfterReply, Valid, AllCells, Keys, Picked, Retried, Requested;
      used := [];
      assert forall rest: seq<nat> :: [] + rest == rest;
      var attempt := 0;
      while true
        invariant Valid() && attempt <= maxRetries
        invariant var (rest, last, final) := Requested(State(), c, exchanges, maxRetries, attempt);
                  (used + rest, last, final) == Requested(old(State()), c, exchanges, maxRetries, 0)
        decreases maxRetries - attempt
      {
        var e := exchanges[attempt];
        OneAttempt(State(), c, exchanges, maxRetries, attempt);
        var outcome := PickProvider(c, e.pickedAt);
        if outcome.NoProviders? || outcome.Unavailable? {
          assert used + [] == used;
          return used, NoKey(outcome);
        }
        Settle(outcome.key, e.reply, maxRetries, e.repliedAt);
        ghost var before := used;
        used := used + [outcome.key];
        if !Retried(e.reply) || attempt == maxRetries {
          return used, LastReply(e.reply);
        }
        attempt := attempt + 1;
        ghost var rest := Requested(State(), c, exchanges, maxRetries, attempt).0;
        assert before + ([outcome.key] + rest) == used + rest;
      }
    }
  }
}
