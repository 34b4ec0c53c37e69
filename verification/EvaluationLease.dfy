/** The evaluation claim of `signals evaluate` (src/main.rs): lease, takeover, fenced release. */
module EvaluationLease {
  import opened Util

  const LEASE_SECONDS := 600

  datatype Subject = Subject(workspace: int, chain: string, mint: string)
  datatype Claim = Claim(claimedBy: string, claimedAt: int, expiresAt: int)
  type Claims = map<Subject, Claim>

  /** Whether the insert-or-take-over statement returns a row. */
  predicate Claimable(claims: Claims, subject: Subject, now: int) {
    subject in claims ==> claims[subject].expiresAt <= now
  }

  function Acquired(claims: Claims, subject: Subject, claimant: string, now: int): Claims {
    if Claimable(claims, subject, now) then claims[subject := Claim(claimant, now, now + LEASE_SECONDS)] else claims
  }

  function Released(claims: Claims, subject: Subject, claimant: string): Claims {
    if subject in claims && claims[subject].claimedBy == claimant then claims - {subject} else claims
  }

  class ClaimTable {
    var claims: Claims

    constructor ()
      ensures claims == map[]
    {
      claims := map[];
    }

    method Acquire(subject: Subject, claimant: string, now: int) returns (granted: bool)
      modifies this
      ensures granted == Claimable(old(claims), subject, now)
      ensures claims == Acquired(old(claims), subject, claimant, now)
    {
      if subject !in claims {
        claims := claims[subject := Claim(claimant, now, now + LEASE_SECONDS)];
        return true;
      }
      var row := claims[subject];
      if row.expiresAt <= now {
        claims := claims[subject := row.(claimedBy := claimant, claimedAt := now, expiresAt := now + LEASE_SECONDS)];
        return true;
      }
      granted := false;
    }

    method Release(subject: Subject, claimant: string)
      modifies this
      ensures claims == Released(old(claims), subject, claimant)
    {
      if subject in claims && claims[subject].claimedBy == claimant {
        claims := claims - {subject};
      }
    }
  }

  // ----- Runs: what the claimants themselves observe -----

  datatype Event =
    | Acquire(subject: Subject, claimant: string, at: int)
    | Release(subject: Subject, claimant: string, at: int)

  function Step(claims: Claims, e: Event): Claims {
    match e
    case Acquire(subject, claimant, at) => Acquired(claims, subject, claimant, at)
    case Release(subject, claimant, _) => Released(claims, subject, claimant)
  }

  function Run(events: seq<Event>): Claims {
    if events == [] then map[] else Step(Run(events[..|events| - 1]), events[|events| - 1])
  }

  ghost predicate ClockRuns(events: seq<Event>) {
    forall i, j | 0 <= i < j < |events| :: events[i].at <= events[j].at
  }

  /** Claimant ids carry a fresh UUID, so no two acquire calls share one. */
  ghost predicate DistinctClaimants(events: seq<Event>) {
    forall i, j | 0 <= i < j < |events| && events[i].Acquire? && events[j].Acquire? :: events[i].claimant != events[j].claimant
  }

  /** The acquire at step `i` was granted to its caller. */
  predicate GrantedAt(events: seq<Event>, i: nat) {
    i < |events| && events[i].Acquire? && Claimable(Run(events[..i]), events[i].subject, events[i].at)
  }

  /** The caller of step `i` was granted the claim, has not released it, and its lease still runs. */
  ghost predicate Holds(events: seq<Event>, i: nat, now: int) {
    && GrantedAt(events, i)
    && now < events[i].at + LEASE_SECONDS
    && forall j | i < j < |events| ::
         !(events[j].Release? && events[j].subject == events[i].subject && events[j].claimant == events[i].claimant)
  }

  /** A holder's row is in the table, under its own name and with its own expiry. */
  lemma {:induction false} HolderOwnsRow(events: seq<Event>, i: nat, now: int)
    requires ClockRuns(events) && DistinctClaimants(events)
    requires i < |events| && events[|events| - 1].at <= now
    requires Holds(events, i, now)
    ensures var row := Claim(events[i].claimant, events[i].at, events[i].at + LEASE_SECONDS);
            events[i].subject in Run(events) && Run(events)[events[i].subject] == row
  {
    var before, last := events[..|events| - 1], events[|events| - 1];
    if i < |events| - 1 {
      assert before[..i] == events[..i];
      HolderOwnsRow(before, i, now);
      assert last.Acquire? ==> last.claimant != events[i].claimant;
    }
  }

  /** At any moment at most one claimant holds an unexpired, unreleased claim on a subject. */
  lemma AtMostOneHolder(events: seq<Event>, i: nat, j: nat, now: int)
    requires ClockRuns(events) && DistinctClaimants(events)
    requires i < |events| && j < |events| && events[|events| - 1].at <= now
    requires Holds(events, i, now) && Holds(events, j, now) && events[i].subject == events[j].subject
    ensures i == j
  {
    HolderOwnsRow(events, i, now);
    HolderOwnsRow(events, j, now);
  }

  /** Nobody but the holder can end a running lease: another claimant's release changes nothing. */
  lemma StaleReleaseIsHarmless(events: seq<Event>, i: nat, now: int, other: string)
    requires ClockRuns(events) && DistinctClaimants(events)
    requires i < |events| && events[|events| - 1].at <= now
    requires Holds(events, i, now) && other != events[i].claimant
    ensures Released(Run(events), events[i].subject, other) == Run(events)
    ensures Holds(events + [Release(events[i].subject, other, now)], i, now)
  {
    HolderOwnsRow(events, i, now);
    var more := events + [Release(events[i].subject, other, now)];
    assert more[..i] == events[..i];
  }

  /** A holder's own release frees the subject at once; an abandoned claim is free when it expires. */
  lemma ClaimIsFreed(events: seq<Event>, i: nat, now: int, later: int)
    requires ClockRuns(events) && DistinctClaimants(events)
    requires i < |events| && events[|events| - 1].at <= now
    requires Holds(events, i, now)
    ensures Claimable(Released(Run(events), events[i].subject, events[i].claimant), events[i].subject, now)
    ensures Claimable(Run(events), events[i].subject, later) <==> later >= events[i].at + LEASE_SECONDS
  {
    HolderOwnsRow(events, i, now);
  }
}
