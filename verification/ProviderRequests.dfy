/** What a request with retries guarantees about its sends and the keys it uses (src/helius.rs). */
module ProviderRequests {
  import opened Util
  import opened TokenAccount
  import opened ProviderKeys
  import opened HeliusPool

  // ----- How many sends -----

  /** Rate limits and server or network errors may pass; everything else is final. */
  predicate MayPass(reply: Reply) {
    match reply
    case RateLimited(_) => true
    case ServerError => true
    case NetworkError => true
    case _ => false
  }

  /**
    * At most one send more than the retries, every one but the last answered with something that may pass.
    * The request ends with the last reply, which is final or the last one allowed, or with no key to be
    * picked.
    */
  lemma {:induction false} SendsBounded(p: Pool, c: ApiClass, exchanges: seq<Exchange>, maxRetries: nat, attempt: nat)
    requires attempt <= maxRetries < |exchanges|
    ensures var (used, end, _) := Requested(p, c, exchanges, maxRetries, attempt);
            && attempt + |used| <= maxRetries + 1
            && (forall i | attempt <= i < attempt + |used| - 1 :: MayPass(exchanges[i].reply))
            && match end
               case LastReply(reply) =>
                 && used != [] && reply == exchanges[attempt + |used| - 1].reply
                 && (MayPass(reply) ==> attempt + |used| == maxRetries + 1)
               case NoKey(outcome) =>
                 && (outcome.NoProviders? || outcome.Unavailable?)
                 && attempt + |used| <= maxRetries
                 && (used != [] ==> MayPass(exchanges[attempt + |used| - 1].reply))
    decreases maxRetries - attempt
  {
    hide Requested, PickedFor, AfterExchange;
    OneAttempt(p, c, exchanges, maxRetries, attempt);
    var e := exchanges[attempt];
    var (outcome, picked) := PickedFor(p, c, e.pickedAt);
    if (outcome.Granted? || outcome.WaitFor?) && Retried(e.reply) && attempt < maxRetries {
      SendsBounded(AfterExchange(picked, outcome.key, e, maxRetries), c, exchanges, maxRetries, attempt + 1);
    }
  }

  // ----- Which keys -----

  /** Cooldown and breaker of a key, which picking never touches. */
  predicate SameHealth(k: Key, l: Key) {
    k.cooldownUntil == l.cooldownUntil && k.failures == l.failures && k.openUntil == l.openUntil
  }

  ghost predicate AllSameHealth(keys: seq<Key>, after: seq<Key>) {
    |keys| == |after| && forall i | 0 <= i < |keys| :: SameHealth(keys[i], after[i])
  }

  lemma AcquireKeepsHealth(keys: seq<Key>, c: ApiClass, now: real, i: nat)
    requires i < |keys|
    ensures AllSameHealth(keys, keys[i := KeyAfter(keys[i], c, now)])
  {
  }

  lemma HealthDecidesAvailability(k: Key, l: Key, now: real)
    requires SameHealth(k, l)
    ensures Available(k, now) == Available(l, now)
  {
  }

  /** A scan uses only available keys and changes no key's health. */
  lemma {:induction false} ScanUsesAvailable(keys: seq<Key>, c: ApiClass, now: real, start: nat, offset: nat, best: Option<(nat, real)>)
    requires keys != [] && offset <= |keys|
    requires best.Some? ==> best.value.0 < |keys| && Available(keys[best.value.0], now)
    ensures var (granted, found, after) := Scan(keys, c, now, start, offset, best);
            && AllSameHealth(keys, after)
            && (granted.Some? ==> Available(keys[granted.value], now))
            && (found.Some? ==> Available(keys[found.value.0], now))
    decreases |keys| - offset
  {
    hide KeyIndex, KeyAfter, KeyWait, Available;
    if offset < |keys| {
      var i := KeyIndex(start, offset, |keys|);
      if Available(keys[i], now) {
        AcquireKeepsHealth(keys, c, now, i);
        var next := keys[i := KeyAfter(keys[i], c, now)];
        forall j | 0 <= j < |keys|
          ensures Available(keys[j], now) == Available(next[j], now)
        {
          HealthDecidesAvailability(keys[j], next[j], now);
        }
        if !Grants(keys[i], c, now) {
          ScanUsesAvailable(next, c, now, start, offset + 1, BetterWait(best, i, KeyWait(keys[i], c, now)));
        }
      } else {
        ScanUsesAvailable(keys, c, now, start, offset + 1, best);
      }
    }
  }

  lemma {:induction false} SweepKeepsHealth(keys: seq<Key>, c: ApiClass, now: real, upTo: nat)
    requires upTo <= |keys|
    ensures AllSameHealth(keys, Sweep(keys, c, now, upTo).1)
  {
    hide KeyAfter, KeyWait, Grants;
    if upTo > 0 {
      SweepKeepsHealth(keys, c, now, upTo - 1);
      AcquireKeepsHealth(Sweep(keys, c, now, upTo - 1).1, c, now, upTo - 1);
    }
  }

  /** A picked key is available, and picking changes no key's health. */
  lemma PickUsesAvailable(p: Pool, c: ApiClass, now: real)
    ensures var (outcome, picked) := PickedFor(p, c, now);
            && AllSameHealth(p.keys, picked.keys)
            && (outcome.Granted? || outcome.WaitFor? ==> Available(p.keys[outcome.key], now))
  {
    hide Scan, Sweep;
    if p.keys != [] {
      ScanUsesAvailable(p.keys, c, now, p.next, 0, None);
      var (_, _, after) := Scan(p.keys, c, now, p.next, 0, None);
      SweepKeepsHealth(after, c, now, |after|);
    }
  }

  /** The key is cooling down or its breaker is open until `until` or longer. */
  predicate BlockedUntil(k: Key, until: real) {
    (k.cooldownUntil.Some? && k.cooldownUntil.value >= until) || (k.openUntil.Some? && k.openUntil.value >= until)
  }

  /** A reply that is retried never shortens a block that is over, or one of another key. */
  lemma RetriedReplyKeepsBlock(k: Key, e: Exchange, maxRetries: nat, until: real)
    requires BlockedUntil(k, until) && Retried(e.reply) && until <= e.repliedAt
    requires e.reply.RateLimited? ==> CooldownOf(e.reply.retryAfter) >= 0.0
    ensures BlockedUntil(AfterReply(k, e.reply, maxRetries, e.repliedAt), until)
  {
  }

  /** Every reply comes after its key was picked, and no server asks for a negative delay. */
  ghost predicate Plausible(exchanges: seq<Exchange>) {
    forall i | 0 <= i < |exchanges| ::
      && exchanges[i].pickedAt <= exchanges[i].repliedAt
      && (exchanges[i].reply.RateLimited? && exchanges[i].reply.retryAfter.Some? ==> exchanges[i].reply.retryAfter.value >= 0.0)
  }

  /** A blocked key is not used before its block ends, whatever the other attempts do meanwhile. */
  lemma {:induction false} BlockedKeyRests(p: Pool, c: ApiClass, exchanges: seq<Exchange>, maxRetries: nat, attempt: nat, key: nat, until: real)
    requires attempt <= maxRetries < |exchanges| && Plausible(exchanges)
    requires key < |p.keys| && BlockedUntil(p.keys[key], until)
    ensures var used := Requested(p, c, exchanges, maxRetries, attempt).0;
            forall j | 0 <= j < |used| && used[j] == key && attempt + j < |exchanges| :: exchanges[attempt + j].pickedAt >= until
    decreases maxRetries - attempt
  {
    hide Requested, PickedFor, AfterReply, Plausible;
    OneAttempt(p, c, exchanges, maxRetries, attempt);
    var e := exchanges[attempt];
    PickUsesAvailable(p, c, e.pickedAt);
    var (outcome, picked) := PickedFor(p, c, e.pickedAt);
    if (outcome.Granted? || outcome.WaitFor?) && Retried(e.reply) && attempt < maxRetries {
      var after := AfterExchange(picked, outcome.key, e, maxRetries);
      assert SameHealth(p.keys[key], picked.keys[key]);
      if outcome.key == key {
        PlausibleAt(exchanges, attempt);
        RetriedReplyKeepsBlock(picked.keys[key], e, maxRetries, until);
      }
      BlockedKeyRests(after, c, exchanges, maxRetries, attempt + 1, key, until);
      var rest := Requested(after, c, exchanges, maxRetries, attempt + 1).0;
      forall j | 0 <= j < |[outcome.key] + rest| && ([outcome.key] + rest)[j] == key && attempt + j < |exchanges|
        ensures exchanges[attempt + j].pickedAt >= until
      {
        if j > 0 {
          assert rest[j - 1] == key && attempt + 1 + (j - 1) == attempt + j;
        }
      }
    }
  }

  lemma PlausibleAt(exchanges: seq<Exchange>, i: nat)
    requires Plausible(exchanges) && i < |exchanges|
    ensures exchanges[i].pickedAt <= exchanges[i].repliedAt
    ensures exchanges[i].reply.RateLimited? ==> CooldownOf(exchanges[i].reply.retryAfter) >= 0.0
  {
  }

  /** A key that answered with a rate limit is not used again by the same request before its cooldown is over. */
  lemma {:induction false} RateLimitedKeyRests(p: Pool, c: ApiClass, exchanges: seq<Exchange>, maxRetries: nat, attempt: nat, i: nat, j: nat)
    requires attempt <= maxRetries < |exchanges| && Plausible(exchanges)
    requires i < j < |Requested(p, c, exchanges, maxRetries, attempt).0| && attempt + j < |exchanges|
    requires Requested(p, c, exchanges, maxRetries, attempt).0[i] == Requested(p, c, exchanges, maxRetries, attempt).0[j]
    requires exchanges[attempt + i].reply.RateLimited?
    ensures var limited := exchanges[attempt + i];
            exchanges[attempt + j].pickedAt >= limited.repliedAt + CooldownOf(limited.reply.retryAfter)
    decreases maxRetries - attempt
  {
    hide Requested, PickedFor, Plausible, CooldownOf;
    OneAttempt(p, c, exchanges, maxRetries, attempt);
    var e := exchanges[attempt];
    var (outcome, picked) := PickedFor(p, c, e.pickedAt);
    var after := AfterExchange(picked, outcome.key, e, maxRetries);
    var rest := Requested(after, c, exchanges, maxRetries, attempt + 1).0;
    assert Requested(p, c, exchanges, maxRetries, attempt).0 == [outcome.key] + rest;
    if i == 0 {
      BlockedKeyRests(after, c, exchanges, maxRetries, attempt + 1, outcome.key, e.repliedAt + CooldownOf(e.reply.retryAfter));
      assert rest[j - 1] == outcome.key && attempt + 1 + (j - 1) == attempt + j;
    } else {
      RateLimitedKeyRests(after, c, exchanges, maxRetries, attempt + 1, i - 1, j - 1);
      assert attempt + 1 + (i - 1) == attempt + i && attempt + 1 + (j - 1) == attempt + j;
    }
  }

  // ----- What the replies make of a key -----

  /** One reply a key got, in a request that allows `maxRetries`. */
  datatype Answer = Answer(reply: Reply, maxRetries: nat, at: real)

  /** The status was a success, whatever the body then said. */
  predicate SuccessStatus(a: Answer) {
    a.reply.Success? || a.reply.DecodeError? || a.reply.RpcError?
  }

  predicate CountsAsFailure(a: Answer) {
    a.reply.RpcError? || a.reply.AuthError? || a.reply.ValidationError? || a.reply.ServerError? || a.reply.NetworkError?
  }

  /** The number of failures in a row at which this one opens the breaker. */
  function Threshold(a: Answer): nat {
    if a.reply.AuthError? || a.reply.ValidationError? then 3 else a.maxRetries
  }

  /** The failures in a row with this answer, before an opening resets them. */
  function InARow(streak: nat, a: Answer): nat {
    (if SuccessStatus(a) then 0 else streak) + (if CountsAsFailure(a) then 1 else 0)
  }

  predicate Opens(streak: nat, a: Answer) {
    CountsAsFailure(a) && InARow(streak, a) >= Threshold(a)
  }

  /** Failures since the last success or opening. */
  function Streak(streak: nat, answers: seq<Answer>): nat
    decreases |answers|
  {
    if answers == [] then streak
    else Streak(if Opens(streak, answers[0]) then 0 else InARow(streak, answers[0]), answers[1..])
  }

  /** The end of the last opening, unless a success came after it. */
  function OpenUntil(until: Option<real>, streak: nat, answers: seq<Answer>): Option<real>
    decreases |answers|
  {
    if answers == [] then until
    else
      var a := answers[0];
      var next := if Opens(streak, a) then 0 else InARow(streak, a);
      OpenUntil(if Opens(streak, a) then Some(a.at + 60.0) else if SuccessStatus(a) then None else until, next, answers[1..])
  }

  /** The cooldown asked for by the last rate limit: one second by default, a minute at most. */
  function CoolUntil(until: Option<real>, answers: seq<Answer>): Option<real>
    decreases |answers|
  {
    if answers == [] then until
    else
      var a := answers[0];
      CoolUntil(if a.reply.RateLimited? then Some(a.at + Asked(a.reply.retryAfter)) else until, answers[1..])
  }

  function Asked(retryAfter: Option<real>): real {
    match retryAfter case None => 1.0 case Some(delay) => if delay > 60.0 then 60.0 else delay
  }

  function Replied(k: Key, answers: seq<Answer>): Key
    decreases |answers|
  {
    if answers == [] then k
    else Replied(AfterReply(k, answers[0].reply, answers[0].maxRetries, answers[0].at), answers[1..])
  }

  /** The breaker opens after exactly as many failures in a row as the last of them needs; only rate limits cool. */
  lemma {:induction false} HealthFromReplies(k: Key, answers: seq<Answer>)
    ensures var after := Replied(k, answers);
            && after.failures == Streak(k.failures, answers)
            && after.openUntil == OpenUntil(k.openUntil, k.failures, answers)
            && after.cooldownUntil == CoolUntil(k.cooldownUntil, answers)
            && after.rpc == k.rpc && after.enhanced == k.enhanced && after.wallet == k.wallet
    decreases |answers|
  {
    if answers != [] {
      HealthFromReplies(AfterReply(k, answers[0].reply, answers[0].maxRetries, answers[0].at), answers[1..]);
    }
  }

  lemma {:induction false} RepliedByHealth(k: Key, l: Key, answers: seq<Answer>)
    requires SameHealth(k, l)
    ensures SameHealth(Replied(k, answers), Replied(l, answers))
    decreases |answers|
  {
    HealthFromReplies(k, answers);
    HealthFromReplies(l, answers);
  }

  /** The replies that `key` got among the attempts of one request. */
  function RepliesTo(used: seq<nat>, exchanges: seq<Exchange>, maxRetries: nat, attempt: nat, key: nat): seq<Answer>
    requires attempt + |used| <= |exchanges|
    decreases |used|
  {
    if used == [] then []
    else
      var e := exchanges[attempt];
      (if used[0] == key then [Answer(e.reply, maxRetries, e.repliedAt)] else []) +
        RepliesTo(used[1..], exchanges, maxRetries, attempt + 1, key)
  }

  lemma {:induction false} RequestKeepsPool(p: Pool, c: ApiClass, exchanges: seq<Exchange>, maxRetries: nat, attempt: nat)
    requires attempt <= maxRetries < |exchanges|
    ensures |Requested(p, c, exchanges, maxRetries, attempt).2.keys| == |p.keys|
    ensures attempt + |Requested(p, c, exchanges, maxRetries, attempt).0| <= |exchanges|
    ensures forall i | i in Requested(p, c, exchanges, maxRetries, attempt).0 :: i < |p.keys|
    decreases maxRetries - attempt
  {
    hide Requested, PickedFor, AfterExchange;
    OneAttempt(p, c, exchanges, maxRetries, attempt);
    var e := exchanges[attempt];
    var (outcome, picked) := PickedFor(p, c, e.pickedAt);
    if (outcome.Granted? || outcome.WaitFor?) && Retried(e.reply) && attempt < maxRetries {
      RequestKeepsPool(AfterExchange(picked, outcome.key, e, maxRetries), c, exchanges, maxRetries, attempt + 1);
    }
  }

  /** A request changes the health of a key by its own replies and nothing else. */
  lemma {:induction false} RequestHealth(p: Pool, c: ApiClass, exchanges: seq<Exchange>, maxRetries: nat, attempt: nat, key: nat)
    requires attempt <= maxRetries < |exchanges| && key < |p.keys|
    ensures var (used, _, final) := Requested(p, c, exchanges, maxRetries, attempt);
            && attempt + |used| <= |exchanges| && |final.keys| == |p.keys|
            && SameHealth(final.keys[key], Replied(p.keys[key], RepliesTo(used, exchanges, maxRetries, attempt, key)))
    decreases maxRetries - attempt
  {
    hide Requested, PickedFor, AfterReply;
    RequestKeepsPool(p, c, exchanges, maxRetries, attempt);
    OneAttempt(p, c, exchanges, maxRetries, attempt);
    var e := exchanges[attempt];
    PickUsesAvailable(p, c, e.pickedAt);
    var (outcome, picked) := PickedFor(p, c, e.pickedAt);
    assert SameHealth(p.keys[key], picked.keys[key]);
    if outcome.Granted? || outcome.WaitFor? {
      var after := AfterExchange(picked, outcome.key, e, maxRetries);
      var own := if outcome.key == key then [Answer(e.reply, maxRetries, e.repliedAt)] else [];
      OneReply(picked.keys[key], e, maxRetries);
      if Retried(e.reply) && attempt < maxRetries {
        RequestHealth(after, c, exchanges, maxRetries, attempt + 1, key);
        var rest := Requested(after, c, exchanges, maxRetries, attempt + 1).0;
        var replies := RepliesTo(rest, exchanges, maxRetries, attempt + 1, key);
        assert ([outcome.key] + rest)[1..] == rest;
        RepliesSplit(picked.keys[key], own, replies);
        RepliedByHealth(p.keys[key], picked.keys[key], own + replies);
      } else {
        assert [outcome.key][1..] == [];
        assert RepliesTo([outcome.key], exchanges, maxRetries, attempt, key) == own + [];
        assert own + [] == own;
        RepliedByHealth(p.keys[key], picked.keys[key], own);
      }
    }
  }

  lemma OneReply(k: Key, e: Exchange, maxRetries: nat)
    ensures Replied(k, [Answer(e.reply, maxRetries, e.repliedAt)]) == AfterReply(k, e.reply, maxRetries, e.repliedAt)
    ensures Replied(k, []) == k
  {
    hide AfterReply;
    var a := Answer(e.reply, maxRetries, e.repliedAt);
    assert [a][1..] == [];
  }

  lemma {:induction false} RepliesSplit(k: Key, first: seq<Answer>, second: seq<Answer>)
    ensures Replied(k, first + second) == Replied(Replied(k, first), second)
    decreases |first|
  {
    hide AfterReply;
    if first == [] {
      assert first + second == second;
    } else {
      assert (first + second)[1..] == first[1..] + second;
      RepliesSplit(AfterReply(k, first[0].reply, first[0].maxRetries, first[0].at), first[1..], second);
    }
  }

  // ----- Runs of requests -----

  datatype Request = Request(class_: ApiClass, exchanges: seq<Exchange>, maxRetries: nat)

  predicate Enough(requests: seq<Request>) {
    forall r | r in requests :: |r.exchanges| > r.maxRetries
  }

  /** The pool after requests one after the other. */
  function Served(p: Pool, requests: seq<Request>): Pool
    requires Enough(requests)
    decreases |requests|
  {
    if requests == [] then p
    else
      var r := requests[0];
      Served(Requested(p, r.class_, r.exchanges, r.maxRetries, 0).2, requests[1..])
  }

  /** All replies a key got in them. */
  function AllReplies(p: Pool, requests: seq<Request>, key: nat): seq<Answer>
    requires Enough(requests)
    decreases |requests|
  {
    if requests == [] then []
    else
      var r := requests[0];
      var (used, _, next) := Requested(p, r.class_, r.exchanges, r.maxRetries, 0);
      RequestKeepsPool(p, r.class_, r.exchanges, r.maxRetries, 0);
      RepliesTo(used, r.exchanges, r.maxRetries, 0, key) + AllReplies(next, requests[1..], key)
  }

  /**
    * Over any requests one after the other, the health of a key is a function of the replies it got: its
    * failure count is what came since its last success or opening, its breaker is open until a minute after
    * the last opening unless a success followed, and its cooldown is that of its last rate limit. A key that
    * got no reply keeps its health.
    */
  lemma {:induction false} HealthOverRequests(p: Pool, requests: seq<Request>, key: nat)
    requires Enough(requests) && key < |p.keys|
    ensures var k, final, answers := p.keys[key], Served(p, requests), AllReplies(p, requests, key);
            && |final.keys| == |p.keys|
            && final.keys[key].failures == Streak(k.failures, answers)
            && final.keys[key].openUntil == OpenUntil(k.openUntil, k.failures, answers)
            && final.keys[key].cooldownUntil == CoolUntil(k.cooldownUntil, answers)
  {
    ServedHealth(p, requests, key);
    HealthFromReplies(p.keys[key], AllReplies(p, requests, key));
  }

  lemma {:induction false} ServedHealth(p: Pool, requests: seq<Request>, key: nat)
    requires Enough(requests) && key < |p.keys|
    ensures |Served(p, requests).keys| == |p.keys|
    ensures SameHealth(Served(p, requests).keys[key], Replied(p.keys[key], AllReplies(p, requests, key)))
    decreases |requests|
  {
    hide Requested, RepliesTo, Replied;
    if requests == [] {
      NoReply(p.keys[key]);
    } else {
      var r := requests[0];
      RequestHealth(p, r.class_, r.exchanges, r.maxRetries, 0, key);
      var (used, _, next) := Requested(p, r.class_, r.exchanges, r.maxRetries, 0);
      ServedHealth(next, requests[1..], key);
      var replies, later := RepliesTo(used, r.exchanges, r.maxRetries, 0, key), AllReplies(next, requests[1..], key);
      RepliedByHealth(next.keys[key], Replied(p.keys[key], replies), later);
      RepliesSplit(p.keys[key], replies, later);
    }
  }

  lemma NoReply(k: Key)
    ensures Replied(k, []) == k
  {
  }

  /** A request that ends with a result leaves the key it came from without failures and its breaker closed. */
  lemma {:induction false} ResultHeals(p: Pool, c: ApiClass, exchanges: seq<Exchange>, maxRetries: nat, attempt: nat)
    requires attempt <= maxRetries < |exchanges|
    requires Requested(p, c, exchanges, maxRetries, attempt).1 == LastReply(Reply.Success)
    ensures var (used, _, final) := Requested(p, c, exchanges, maxRetries, attempt);
            && used != [] && used[|used| - 1] < |final.keys|
            && final.keys[used[|used| - 1]].failures == 0 && final.keys[used[|used| - 1]].openUntil.None?
    decreases maxRetries - attempt
  {
    hide Requested, PickedFor;
    OneAttempt(p, c, exchanges, maxRetries, attempt);
    var e := exchanges[attempt];
    var (outcome, picked) := PickedFor(p, c, e.pickedAt);
    if (outcome.Granted? || outcome.WaitFor?) && Retried(e.reply) && attempt < maxRetries {
      ResultHeals(AfterExchange(picked, outcome.key, e, maxRetries), c, exchanges, maxRetries, attempt + 1);
    }
  }
}
