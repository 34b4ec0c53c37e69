/** What provider selection guarantees, with the clock fixed during a call. */
module FairPicking {
  import opened TokenAccount
  import opened Util
  import opened ProviderKeys
  import opened HeliusPool

  /** A key with the tokens it is owed at `now`: what it can really grant. */
  function Settled(k: Key, now: real): Key {
    Key(Refilled(k.rpc, now), Refilled(k.enhanced, now), Refilled(k.wallet, now), k.cooldownUntil, k.failures, k.openUntil)
  }

  /** One token fewer in one class, and nothing else. */
  function Take(k: Key, c: ApiClass): Key {
    WithBucket(k, c, BucketOf(k, c).(tokens := BucketOf(k, c).tokens - 1.0))
  }

  /** Every key owns what it did before, except that `taken` gave up one token of class `c`. */
  ghost predicate Spent(before: seq<Key>, after: seq<Key>, c: ApiClass, now: real, taken: Option<nat>) {
    && |before| == |after|
    && forall i | 0 <= i < |before| ::
         Settled(after[i], now) == if taken == Some(i) then Take(Settled(before[i], now), c) else Settled(before[i], now)
  }

  lemma SettledAnswers(k: Key, c: ApiClass, now: real)
    ensures var s := Settled(k, now);
            && Available(s, now) == Available(k, now) && Grants(s, c, now) == Grants(k, c, now)
            && KeyWait(s, c, now) == KeyWait(k, c, now)
  {
    hide Credit;
  }

  lemma SettledAfter(k: Key, c: ApiClass, now: real)
    ensures Settled(KeyAfter(k, c, now), now) == if Grants(k, c, now) then Take(Settled(k, now), c) else Settled(k, now)
  {
    hide Credit;
  }

  lemma SameOwnSameAnswers(k: Key, l: Key, c: ApiClass, now: real)
    requires Settled(k, now) == Settled(l, now)
    ensures Available(k, now) == Available(l, now) && Grants(k, c, now) == Grants(l, c, now)
    ensures KeyWait(k, c, now) == KeyWait(l, c, now)
  {
    SettledAnswers(k, c, now);
    SettledAnswers(l, c, now);
  }

  // ----- The scan -----

  /** The position at which the scan granted: nothing before it could. */
  ghost predicate FirstGrant(keys: seq<Key>, c: ApiClass, now: real, start: nat, offset: nat, o: nat, i: nat)
    requires keys != []
  {
    && offset <= o < |keys| && i == KeyIndex(start, o, |keys|) && Grants(keys[i], c, now)
    && forall p | offset <= p < o :: !Grants(keys[KeyIndex(start, p, |keys|)], c, now)
  }

  /** `best` is a minimal wait among the available keys from `offset` on, or the one passed in. */
  ghost predicate BestOf(keys: seq<Key>, c: ApiClass, now: real, start: nat, offset: nat,
                         given: Option<(nat, real)>, best: Option<(nat, real)>)
    requires keys != []
  {
    var n := |keys|;
    && (best.Some? ==>
          best == given || exists p :: FirstWait(keys, c, now, start, offset, p, best.value) &&
                                       (given.Some? ==> best.value.1 < given.value.1))
    && (given.Some? ==> best.Some? && best.value.1 <= given.value.1)
    && (forall p | offset <= p < n && Available(keys[KeyIndex(start, p, n)], now) ::
          best.Some? && best.value.1 <= KeyWait(keys[KeyIndex(start, p, n)], c, now))
  }

  /** Position `p` waits that long, and every available key looked at before it longer. */
  ghost predicate FirstWait(keys: seq<Key>, c: ApiClass, now: real, start: nat, offset: nat, p: nat, wait: (nat, real))
    requires keys != []
  {
    && offset <= p < |keys| && Waits(keys, c, now, KeyIndex(start, p, |keys|), wait)
    && forall q | offset <= q < p && Available(keys[KeyIndex(start, q, |keys|)], now) ::
         wait.1 < KeyWait(keys[KeyIndex(start, q, |keys|)], c, now)
  }

  ghost predicate Waits(keys: seq<Key>, c: ApiClass, now: real, i: nat, wait: (nat, real)) {
    i < |keys| && Available(keys[i], now) && wait == (i, KeyWait(keys[i], c, now))
  }

  lemma VisitedKey(keys: seq<Key>, c: ApiClass, now: real, i: nat)
    requires i < |keys| && !Grants(keys[i], c, now)
    ensures Spent(keys, keys[i := KeyAfter(keys[i], c, now)], c, now, None)
  {
    SettledAfter(keys[i], c, now);
  }

  lemma SpentNothingSameAnswers(keys: seq<Key>, after: seq<Key>, c: ApiClass, now: real)
    requires Spent(keys, after, c, now, None)
    ensures forall i | 0 <= i < |keys| ::
              && Available(after[i], now) == Available(keys[i], now) && Grants(after[i], c, now) == Grants(keys[i], c, now)
              && KeyWait(after[i], c, now) == KeyWait(keys[i], c, now)
  {
    forall i | 0 <= i < |keys|
      ensures Available(after[i], now) == Available(keys[i], now) && Grants(after[i], c, now) == Grants(keys[i], c, now)
      ensures KeyWait(after[i], c, now) == KeyWait(keys[i], c, now)
    {
      SameOwnSameAnswers(after[i], keys[i], c, now);
    }
  }

  lemma NothingSpent(keys: seq<Key>, c: ApiClass, now: real)
    ensures Spent(keys, keys, c, now, None)
  {
  }

  lemma SpentThen(keys: seq<Key>, next: seq<Key>, after: seq<Key>, c: ApiClass, now: real, taken: Option<nat>)
    requires Spent(keys, next, c, now, None) && Spent(next, after, c, now, taken)
    ensures Spent(keys, after, c, now, taken)
  {
    hide Settled, Take;
  }

  lemma GrantSpendsOne(keys: seq<Key>, c: ApiClass, now: real, start: nat, offset: nat)
    requires offset < |keys| && Grants(keys[KeyIndex(start, offset, |keys|)], c, now)
    ensures var i := KeyIndex(start, offset, |keys|);
            && Spent(keys, keys[i := KeyAfter(keys[i], c, now)], c, now, Some(i))
            && FirstGrant(keys, c, now, start, offset, offset, i)
  {
    hide KeyIndex, Grants, KeyAfter, Settled, Take;
    SettledAfter(keys[KeyIndex(start, offset, |keys|)], c, now);
  }

  /** What the scan from the next position finds, when this one could not grant and spent nothing. */
  lemma ScanLater(keys: seq<Key>, next: seq<Key>, c: ApiClass, now: real, start: nat, offset: nat)
    requires offset < |keys| == |next| && !Grants(keys[KeyIndex(start, offset, |keys|)], c, now)
    requires Spent(keys, next, c, now, None)
    ensures forall o, i :: FirstGrant(next, c, now, start, offset + 1, o, i) ==> FirstGrant(keys, c, now, start, offset, o, i)
    ensures (forall p | offset + 1 <= p < |keys| :: !Grants(next[KeyIndex(start, p, |keys|)], c, now)) ==>
              forall p | offset <= p < |keys| :: !Grants(keys[KeyIndex(start, p, |keys|)], c, now)
  {
    hide KeyIndex, Grants, Settled, Take, Available, KeyWait;
    SpentNothingSameAnswers(keys, next, c, now);
  }

  lemma {:induction false} ScanSpends(keys: seq<Key>, c: ApiClass, now: real, start: nat, offset: nat, best: Option<(nat, real)>)
    requires keys != [] && offset <= |keys| && (best.Some? ==> best.value.0 < |keys|)
    ensures var (granted, _, after) := Scan(keys, c, now, start, offset, best);
            && Spent(keys, after, c, now, granted)
            && (granted.Some? ==> exists o :: FirstGrant(keys, c, now, start, offset, o, granted.value))
            && (granted.None? ==> forall p | offset <= p < |keys| :: !Grants(keys[KeyIndex(start, p, |keys|)], c, now))
    decreases |keys| - offset
  {
    hide KeyIndex, Grants, KeyAfter, KeyWait, Available, BetterWait, Spent, FirstGrant;
    NothingSpent(keys, c, now);
    if offset < |keys| {
      var i := KeyIndex(start, offset, |keys|);
      GrantingIsAvailable(keys[i], c, now);
      if Grants(keys[i], c, now) {
        GrantSpendsOne(keys, c, now, start, offset);
      } else {
        var next := if Available(keys[i], now) then keys[i := KeyAfter(keys[i], c, now)] else keys;
        var kept := if Available(keys[i], now) then BetterWait(best, i, KeyWait(keys[i], c, now)) else best;
        VisitedKey(keys, c, now, i);
        ScanSpends(next, c, now, start, offset + 1, kept);
        var (granted, _, after) := Scan(next, c, now, start, offset + 1, kept);
        SpentThen(keys, next, after, c, now, granted);
        ScanLater(keys, next, c, now, start, offset);
        if granted.Some? {
          var o :| FirstGrant(next, c, now, start, offset + 1, o, granted.value);
          assert FirstGrant(keys, c, now, start, offset, o, granted.value);
        }
      }
    }
  }

  lemma GrantingIsAvailable(k: Key, c: ApiClass, now: real)
    ensures Grants(k, c, now) ==> Available(k, now)
  {
  }

  lemma {:induction false} ScanFindsBest(keys: seq<Key>, c: ApiClass, now: real, start: nat, offset: nat, best: Option<(nat, real)>)
    requires keys != [] && offset <= |keys| && (best.Some? ==> best.value.0 < |keys|)
    requires Scan(keys, c, now, start, offset, best).0.None?
    ensures BestOf(keys, c, now, start, offset, best, Scan(keys, c, now, start, offset, best).1)
    decreases |keys| - offset
  {
    hide KeyIndex, Grants, KeyAfter, KeyWait, Available, Settled, Take;
    if offset < |keys| {
      var i := KeyIndex(start, offset, |keys|);
      GrantingIsAvailable(keys[i], c, now);
      var next := if Available(keys[i], now) then keys[i := KeyAfter(keys[i], c, now)] else keys;
      var kept := if Available(keys[i], now) then BetterWait(best, i, KeyWait(keys[i], c, now)) else best;
      VisitedKey(keys, c, now, i);
      SpentNothingSameAnswers(keys, next, c, now);
      ScanFindsBest(next, c, now, start, offset + 1, kept);
      BestOfStep(keys, next, c, now, start, offset, best, kept, Scan(next, c, now, start, offset + 1, kept).1);
    }
  }

  lemma BestOfStep(keys: seq<Key>, next: seq<Key>, c: ApiClass, now: real, start: nat, offset: nat,
                   given: Option<(nat, real)>, kept: Option<(nat, real)>, best: Option<(nat, real)>)
    requires keys != [] && offset < |keys| == |next|
    requires forall j | 0 <= j < |keys| ::
               Available(next[j], now) == Available(keys[j], now) && KeyWait(next[j], c, now) == KeyWait(keys[j], c, now)
    requires var i := KeyIndex(start, offset, |keys|);
             kept == if Available(keys[i], now) then BetterWait(given, i, KeyWait(keys[i], c, now)) else given
    requires BestOf(next, c, now, start, offset + 1, kept, best)
    ensures BestOf(keys, c, now, start, offset, given, best)
  {
    hide KeyIndex, KeyWait, Available;
    var n := |keys|;
    if best.Some? && best != given {
      if best == kept {
        assert FirstWait(keys, c, now, start, offset, offset, best.value);
      } else {
        var p: nat :| FirstWait(next, c, now, start, offset + 1, p, best.value) && (kept.Some? ==> best.value.1 < kept.value.1);
        forall q | offset <= q < p && Available(keys[KeyIndex(start, q, n)], now)
          ensures best.value.1 < KeyWait(keys[KeyIndex(start, q, n)], c, now)
        {
          if q > offset {
            assert Available(next[KeyIndex(start, q, n)], now);
          }
        }
        assert FirstWait(keys, c, now, start, offset, p, best.value);
      }
    }
    forall p | offset <= p < n && Available(keys[KeyIndex(start, p, n)], now)
      ensures best.Some? && best.value.1 <= KeyWait(keys[KeyIndex(start, p, n)], c, now)
    {
      if p > offset {
        assert Available(next[KeyIndex(start, p, n)], now);
      }
    }
  }

  /** With no key available the sweep touches nothing and finds the shortest remaining time. */
  lemma {:induction false} SweepFindsShortest(keys: seq<Key>, c: ApiClass, now: real, upTo: nat)
    requires upTo <= |keys| && forall i | 0 <= i < |keys| :: !Available(keys[i], now)
    ensures var (shortest, after) := Sweep(keys, c, now, upTo);
            && after == keys
            && (upTo > 0 ==> shortest.Some? && exists i :: 0 <= i < upTo && shortest.value == KeyWait(keys[i], c, now))
            && forall i | 0 <= i < upTo :: shortest.Some? && shortest.value <= KeyWait(keys[i], c, now)
  {
    hide KeyWait;
    if upTo > 0 {
      SweepFindsShortest(keys, c, now, upTo - 1);
      assert keys[upTo - 1 := keys[upTo - 1]] == keys;
      assert !Grants(keys[upTo - 1], c, now);
    }
  }

  // ----- The cursor -----

  /** Neither the cursor nor the sum can wrap during the scan, or wrapping is harmless. */
  predicate CursorSafe(start: nat, count: nat)
    requires count > 0
  {
    start + count <= CURSOR_RANGE || CURSOR_RANGE % count == 0
  }

  /** A safe cursor indexes as if it were unbounded. */
  lemma SafeIndex(start: nat, count: nat, o: nat)
    requires count > 0 && start < CURSOR_RANGE && CursorSafe(start, count) && o < count
    ensures KeyIndex(start, o, count) == (start + o) % count
  {
    if start + count <= CURSOR_RANGE {
      RemainderOf(start + o, CURSOR_RANGE, 0, start + o);
    } else {
      RemainderThroughMultiple(start + o, CURSOR_RANGE, count);
    }
  }

  lemma OffsetsDiffer(start: nat, count: nat, a: nat, b: nat)
    requires count > 0 && start < CURSOR_RANGE && CursorSafe(start, count) && a < b < count
    ensures KeyIndex(start, a, count) != KeyIndex(start, b, count)
  {
    hide KeyIndex;
    SafeIndex(start, count, a);
    SafeIndex(start, count, b);
    RemaindersDiffer(start + a, start + b, count);
  }

  /** The offset at which key `i` is looked at. */
  lemma EveryKeyVisited(start: nat, count: nat, i: nat) returns (o: nat)
    requires i < count && start < CURSOR_RANGE && CursorSafe(start, count)
    ensures o < count && KeyIndex(start, o, count) == i
  {
    hide KeyIndex;
    var q, r := start / count, start % count;
    assert start == q * count + r;
    if r <= i {
      o := i - r;
      RemainderOf(start + o, count, q, i);
    } else {
      o := count - r + i;
      assert (q + 1) * count == q * count + count;
      RemainderOf(start + o, count, q + 1, i);
    }
    SafeIndex(start, count, o);
  }

  /** Moving the cursor and moving the offset are the same. */
  lemma CursorMoves(start: nat, count: nat, o: nat)
    requires count > 0
    ensures KeyIndex((start + o) % CURSOR_RANGE, 0, count) == KeyIndex(start, o, count)
  {
    var x := (start + o) % CURSOR_RANGE;
    RemainderOf(x, CURSOR_RANGE, 0, x);
  }

  /** When the cursor does wrap in a scan, some key is not looked at, however free it is. */
  lemma WrapMissesAKey(start: nat, count: nat) returns (i: nat)
    requires 0 < count <= CURSOR_RANGE && start < CURSOR_RANGE && !CursorSafe(start, count)
    ensures i < count && forall o | 0 <= o < count :: KeyIndex(start, o, count) != i
  {
    var r, k := CURSOR_RANGE % count, CURSOR_RANGE - start;
    i := if r <= k then count - k + r - 1 else count - 1;
    forall o | 0 <= o < count
      ensures KeyIndex(start, o, count) != i
    {
      if o < k {
        BeforeWrap(start, count, o, i);
      } else {
        assert (start + o) % CURSOR_RANGE == o - k by {
          RemainderOf(start + o, CURSOR_RANGE, 1, o - k);
        }
        RemainderOf(o - k, count, 0, o - k);
      }
    }
  }

  lemma BeforeWrap(start: nat, count: nat, o: nat, i: nat)
    requires 0 < count <= CURSOR_RANGE && start < CURSOR_RANGE && !CursorSafe(start, count) && o < count
    requires o < CURSOR_RANGE - start
    requires var r, k := CURSOR_RANGE % count, CURSOR_RANGE - start;
             i == if r <= k then count - k + r - 1 else count - 1
    ensures KeyIndex(start, o, count) != i
  {
    var r, k, q := CURSOR_RANGE % count, CURSOR_RANGE - start, CURSOR_RANGE / count;
    assert CURSOR_RANGE == q * count + r;
    assert start + o == q * count + (r - k + o);
    RemainderOf(start + o, CURSOR_RANGE, 0, start + o);
    if r - k + o >= 0 {
      RemainderOf(start + o, count, q, r - k + o);
    } else {
      assert (q - 1) * count == q * count - count;
      RemainderOf(start + o, count, q - 1, count + r - k + o);
    }
  }

  // ----- Main results -----

  /** What one call returns and costs, for any keys, class, clock and cursor that does not wrap badly. */
  lemma PickContract(keys: seq<Key>, c: ApiClass, now: real, start: nat)
    requires keys != [] && start < CURSOR_RANGE && CursorSafe(start, |keys|)
    ensures var (outcome, after) := Picked(keys, c, now, start);
            && (outcome.Granted? <==> exists i :: 0 <= i < |keys| && Grants(keys[i], c, now))
            && (outcome.Granted? ==> outcome.key < |keys| && Grants(keys[outcome.key], c, now))
            && Spent(keys, after, c, now, if outcome.Granted? then Some(outcome.key) else None)
    ensures var (outcome, _) := Picked(keys, c, now, start);
            && (outcome.WaitFor? ==>
                  && Waits(keys, c, now, outcome.key, (outcome.key, outcome.wait))
                  && forall i | 0 <= i < |keys| && Available(keys[i], now) :: outcome.wait <= KeyWait(keys[i], c, now))
            && (outcome.Unavailable? ==>
                  && (forall i | 0 <= i < |keys| :: !Available(keys[i], now) && outcome.wait <= KeyWait(keys[i], c, now))
                  && exists i :: 0 <= i < |keys| && outcome.wait == KeyWait(keys[i], c, now))
            && !outcome.NoProviders?
    ensures var (outcome, _) := Picked(keys, c, now, start);
            && (outcome.Granted? ==> exists o :: FirstGrant(keys, c, now, start, 0, o, outcome.key))
            && (outcome.WaitFor? ==> exists o :: FirstWait(keys, c, now, start, 0, o, (outcome.key, outcome.wait)))
  {
    hide KeyIndex, Grants, KeyWait, Available, Settled, Take, KeyAfter;
    var n := |keys|;
    var (granted, best, after) := Scan(keys, c, now, start, 0, None);
    ScanSpends(keys, c, now, start, 0, None);
    if granted.None? {
      ScanFindsBest(keys, c, now, start, 0, None);
      forall i | 0 <= i < n
        ensures !Grants(keys[i], c, now)
        ensures Available(keys[i], now) ==> best.Some? && best.value.1 <= KeyWait(keys[i], c, now)
      {
        var o := EveryKeyVisited(start, n, i);
      }
      if best.None? {
        SpentNothingSameAnswers(keys, after, c, now);
        SweepFindsShortest(after, c, now, |after|);
      }
    }
  }

  /** A pool says that it has no providers exactly when it has none, and then nothing happens to it. */
  lemma NoProvidersMeansEmpty(keys: seq<Key>, c: ApiClass, now: real, start: nat)
    ensures Picked(keys, c, now, start).0.NoProviders? <==> keys == []
    ensures keys == [] ==> Picked(keys, c, now, start).1 == []
  {
    hide Scan, Sweep;
  }

  /** When only the key the wrapped scan misses is available, the call reports that none is. */
  lemma MissedKeyIsUnused(keys: seq<Key>, c: ApiClass, now: real, start: nat, missed: nat)
    requires keys != [] && forall o | 0 <= o < |keys| :: KeyIndex(start, o, |keys|) != missed
    requires forall i | 0 <= i < |keys| && i != missed :: !Available(keys[i], now)
    ensures Picked(keys, c, now, start).0.Unavailable?
  {
    hide KeyIndex, KeyAfter, Settled, Take;
    ScanSpends(keys, c, now, start, 0, None);
    if Scan(keys, c, now, start, 0, None).0.None? {
      ScanFindsBest(keys, c, now, start, 0, None);
    }
  }

  /** A key with a token in every class, and one that has them but is cooling down. */
  function FreeKey(now: real): Key {
    Key(Bucket(1, 1.0, now), Bucket(1, 1.0, now), Bucket(1, 1.0, now), None, 0, None)
  }

  function CoolingKey(now: real): Key {
    FreeKey(now).(cooldownUntil := Some(now + 1.0))
  }

  /** With a cursor that is not safe the guarantee fails: a pool of any size with a free key reports none. */
  lemma UnsafeCursorFails(count: nat, start: nat, c: ApiClass, now: real) returns (keys: seq<Key>, missed: nat)
    requires 0 < count <= CURSOR_RANGE && start < CURSOR_RANGE && !CursorSafe(start, count)
    ensures |keys| == count && missed < count && Grants(keys[missed], c, now)
    ensures Picked(keys, c, now, start).0.Unavailable?
  {
    hide KeyIndex, Picked;
    missed := WrapMissesAKey(start, count);
    var free, cooling := FreeKey(now), CoolingKey(now);
    keys := seq(count, i => if i == missed then free else cooling);
    MissedKeyIsUnused(keys, c, now, start, missed);
  }

  ghost predicate GrantsWhenItCan(keys: seq<Key>, c: ApiClass, now: real, start: nat) {
    Picked(keys, c, now, start).0.Granted? <==> exists i :: 0 <= i < |keys| && Grants(keys[i], c, now)
  }

  /** For a cursor and a number of keys, a free key is always found exactly when the cursor is safe. */
  lemma CursorSafetyIsExact(start: nat, count: nat)
    requires 0 < count <= CURSOR_RANGE && start < CURSOR_RANGE
    ensures CursorSafe(start, count) <==> forall keys, c, now | |keys| == count :: GrantsWhenItCan(keys, c, now, start)
  {
    hide KeyIndex, Picked, Grants;
    if CursorSafe(start, count) {
      forall keys, c, now | |keys| == count
        ensures GrantsWhenItCan(keys, c, now, start)
      {
        PickContract(keys, c, now, start);
      }
    } else {
      var keys, missed := UnsafeCursorFails(count, start, Rpc, 0.0);
      assert !GrantsWhenItCan(keys, Rpc, 0.0, start);
    }
  }

  /** The outcomes of calls in a row, each moving the cursor by one. */
  function PickMany(keys: seq<Key>, c: ApiClass, now: real, start: nat, calls: nat): (seq<Outcome>, seq<Key>) {
    if calls == 0 then ([], keys)
    else
      var (earlier, before) := PickMany(keys, c, now, start, calls - 1);
      var (outcome, after) := Picked(before, c, now, (start + calls - 1) % CURSOR_RANGE);
      (earlier + [outcome], after)
  }

  /** The key under the cursor is granted at once when it has a token. */
  lemma CursorKeyFirst(keys: seq<Key>, c: ApiClass, now: real, start: nat)
    requires keys != [] && Grants(keys[KeyIndex(start, 0, |keys|)], c, now)
    ensures var i := KeyIndex(start, 0, |keys|);
            Picked(keys, c, now, start) == (Granted(i), keys[i := KeyAfter(keys[i], c, now)])
  {
    hide KeyIndex, KeyAfter, KeyWait;
    GrantingIsAvailable(keys[KeyIndex(start, 0, |keys|)], c, now);
  }

  /** As many calls as keys, all with a token, serve each key once, in cursor order. */
  lemma {:induction false} EveryKeyServedOnce(keys: seq<Key>, c: ApiClass, now: real, start: nat, calls: nat)
    requires keys != [] && start < CURSOR_RANGE && CursorSafe(start, |keys|) && calls <= |keys|
    requires forall i | 0 <= i < |keys| :: Grants(keys[i], c, now)
    ensures var (outcomes, after) := PickMany(keys, c, now, start, calls);
            && |outcomes| == calls && |after| == |keys|
            && (forall j | 0 <= j < calls :: outcomes[j] == Granted(KeyIndex(start, j, |keys|)))
            && (forall j, l | 0 <= j < l < calls :: outcomes[j] != outcomes[l])
            && (forall i | 0 <= i < |keys| && Granted(i) !in outcomes :: after[i] == keys[i])
  {
    hide KeyIndex, Grants, KeyAfter;
    if calls > 0 {
      var n := |keys|;
      EveryKeyServedOnce(keys, c, now, start, calls - 1);
      var (earlier, before) := PickMany(keys, c, now, start, calls - 1);
      var cursor := (start + calls - 1) % CURSOR_RANGE;
      var i := KeyIndex(start, calls - 1, n);
      CursorMoves(start, n, calls - 1);
      forall j | 0 <= j < calls - 1
        ensures earlier[j] != Granted(i)
      {
        OffsetsDiffer(start, n, j, calls - 1);
      }
      assert before[i] == keys[i];
      CursorKeyFirst(before, c, now, cursor);
    }
  }
}
