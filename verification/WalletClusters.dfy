/** Connectivity of an undirected relation between wallet addresses. */
module Connectivity {

  /** A set of undirected links between wallet addresses. */
  type Links = set<(string, string)>

  ghost predicate Linked(links: Links, a: string, b: string) {
    (a, b) in links || (b, a) in links
  }

  ghost predicate IsPath(links: Links, p: seq<string>) {
    |p| > 0 && forall i | 0 <= i < |p| - 1 :: Linked(links, p[i], p[i + 1])
  }

  ghost predicate PathBetween(links: Links, p: seq<string>, a: string, b: string) {
    IsPath(links, p) && p[0] == a && p[|p| - 1] == b
  }

  ghost predicate Connected(links: Links, a: string, b: string) {
    exists p :: PathBetween(links, p, a, b)
  }

  /** The addresses that occur in some link. */
  ghost function Nodes(links: Links): set<string> {
    (set l | l in links :: l.0) + (set l | l in links :: l.1)
  }

  lemma LinkConnects(links: Links, a: string, b: string)
    requires a == b || Linked(links, a, b)
    ensures Connected(links, a, b)
  {
    var p := if a == b then [a] else [a, b];
    assert PathBetween(links, p, a, b);
  }

  lemma ConnectedSymmetric(links: Links, a: string, b: string)
    requires Connected(links, a, b)
    ensures Connected(links, b, a)
  {
    var p :| PathBetween(links, p, a, b);
    var r := seq(|p|, i requires 0 <= i < |p| => p[|p| - 1 - i]);
    forall i | 0 <= i < |r| - 1
      ensures Linked(links, r[i], r[i + 1])
    {
      assert Linked(links, p[|p| - 2 - i], p[|p| - 2 - i + 1]);
    }
    assert PathBetween(links, r, b, a);
  }

  lemma ConnectedTransitive(links: Links, a: string, b: string, c: string)
    requires Connected(links, a, b) && Connected(links, b, c)
    ensures Connected(links, a, c)
  {
    var p :| PathBetween(links, p, a, b);
    var q :| PathBetween(links, q, b, c);
    var r := p + q[1..];
    forall i | 0 <= i < |r| - 1
      ensures Linked(links, r[i], r[i + 1])
    {
      if i >= |p| - 1 {
        assert r[i] == q[i - (|p| - 1)];
        assert Linked(links, q[i - (|p| - 1)], q[i - (|p| - 1) + 1]);
      }
    }
    assert PathBetween(links, r, a, c);
  }

  lemma ConnectedMonotone(links: Links, more: Links, a: string, b: string)
    requires links <= more && Connected(links, a, b)
    ensures Connected(more, a, b)
  {
    var p :| PathBetween(links, p, a, b);
    assert PathBetween(more, p, a, b) by {
      forall i | 0 <= i < |p| - 1
        ensures Linked(more, p[i], p[i + 1])
      {
        assert Linked(links, p[i], p[i + 1]);
      }
    }
  }

  /** A set that no link leaves contains everything connected to one of its elements. */
  lemma ConnectedStaysInside(links: Links, inside: set<string>, a: string, b: string)
    requires forall l | l in links :: l.0 in inside <==> l.1 in inside
    requires a in inside && Connected(links, a, b)
    ensures b in inside
  {
    var p :| PathBetween(links, p, a, b);
    var i := 0;
    while i < |p| - 1
      invariant 0 <= i < |p| && p[i] in inside
    {
      assert Linked(links, p[i], p[i + 1]);
      i := i + 1;
    }
  }
}

/** Soft wallet clustering (src/graph.rs), on one fixed chain. */
module WalletClusters {
  import opened Util
  import opened Connectivity

  // ----- Edge confidence, in hundredths -----

  datatype EdgeComponents = EdgeComponents(
    funding: bool,
    tokenAccountCreation: bool,
    repeatedFunding: bool,
    closeTimeSameToken: bool,
    tradeStyleMatch: bool)

  const WEIGHT_FUNDING := 35
  const WEIGHT_TOKEN_ACCOUNT := 25
  const WEIGHT_REPEATED_FUNDING := 15
  const WEIGHT_CLOSE_TIME_ACTIVITY := 15
  const WEIGHT_TRADE_STYLE := 10
  const MEMBERSHIP_THRESHOLD := 70

  function Confidence(c: EdgeComponents): (score: int) {
    var total :=
      (if c.funding then WEIGHT_FUNDING else 0) +
      (if c.tokenAccountCreation then WEIGHT_TOKEN_ACCOUNT else 0) +
      (if c.repeatedFunding then WEIGHT_REPEATED_FUNDING else 0) +
      (if c.closeTimeSameToken then WEIGHT_CLOSE_TIME_ACTIVITY else 0) +
      (if c.tradeStyleMatch then WEIGHT_TRADE_STYLE else 0);
    if total > 100 then 100 else total
  }

  method ScoreEdgeConfidence(c: EdgeComponents) returns (score: int)
    ensures score == Confidence(c)
  {
    score := 0;
    if c.funding { score := score + WEIGHT_FUNDING; }
    if c.tokenAccountCreation { score := score + WEIGHT_TOKEN_ACCOUNT; }
    if c.repeatedFunding { score := score + WEIGHT_REPEATED_FUNDING; }
    if c.closeTimeSameToken { score := score + WEIGHT_CLOSE_TIME_ACTIVITY; }
    if c.tradeStyleMatch { score := score + WEIGHT_TRADE_STYLE; }
    if score > 100 { score := 100; }
  }

  // ----- Tables -----

  /** Primary key of a funding edge; a second row with the same key is dropped. */
  datatype EdgeKey = EdgeKey(fromAddress: string, toAddress: string, signature: string, kind: string)

  /** One row of the membership table, keyed by cluster and address. */
  datatype Membership = Membership(confidence: int, revokedAt: Option<int>)

  type Edges = map<EdgeKey, int>
  type Rows = map<(nat, string), Membership>

  /** `clusterSeq` is the last cluster id handed out; it is never handed out again. */
  datatype Tables = Tables(edges: Edges, clusterSeq: nat, rows: Rows)

  const EMPTY := Tables(map[], 0, map[])

  predicate In(rows: Rows, cluster: nat, address: string) {
    (cluster, address) in rows && rows[(cluster, address)].revokedAt.None?
  }

  ghost predicate IsActive(rows: Rows, address: string) {
    exists cluster :: In(rows, cluster, address)
  }

  ghost predicate SameCluster(rows: Rows, a: string, b: string) {
    exists cluster :: In(rows, cluster, a) && In(rows, cluster, b)
  }

  /** At most one active membership per address: the partial unique index of the schema. */
  ghost predicate OneActive(rows: Rows) {
    forall address, c, d :: In(rows, c, address) && In(rows, d, address) ==> c == d
  }

  ghost predicate IdsIssued(t: Tables) {
    forall key | key in t.rows :: 1 <= key.0 <= t.clusterSeq
  }

  // ----- What one rebuild reads -----

  function StrongEdges(edges: Edges, address: string): set<EdgeKey> {
    set k | k in edges && (k.fromAddress == address || k.toAddress == address) && edges[k] >= MEMBERSHIP_THRESHOLD
  }

  /** The wallet itself and every endpoint of its strong edges: the star, not the component. */
  function StarMembers(edges: Edges, address: string): set<string> {
    var strong := StrongEdges(edges, address);
    {address} + (set k | k in strong :: k.fromAddress) + (set k | k in strong :: k.toAddress)
  }

  function ActiveClustersOf(rows: Rows, members: set<string>): set<nat> {
    set key | key in rows && rows[key].revokedAt.None? && key.1 in members :: key.0
  }

  function ActiveMembersOf(rows: Rows, clusters: set<nat>): set<string> {
    set key | key in rows && rows[key].revokedAt.None? && key.0 in clusters :: key.1
  }

  // ----- What one rebuild writes -----

  /** The table after revoking every active row of `revoked` and activating `joined` in `canonical`. */
  function Fold(rows: Rows, revoked: set<nat>, joined: set<string>, canonical: nat, now: int): Rows {
    map key | key in rows.Keys + (set a | a in joined :: (canonical, a)) ::
      if key.0 == canonical && key.1 in joined then Membership(MEMBERSHIP_THRESHOLD, None)
      else if key.0 in revoked && rows[key].revokedAt.None? then rows[key].(revokedAt := Some(now))
      else rows[key]
  }

  function CanonicalCluster(t: Tables, members: set<string>): nat {
    var existing := ActiveClustersOf(t.rows, members);
    if existing == {} then t.clusterSeq + 1 else MinOf(existing)
  }

  /** The committed effect of one rebuild. */
  function Rebuilt(t: Tables, address: string, now: int): Tables {
    if StrongEdges(t.edges, address) == {} then t
    else
      var members := StarMembers(t.edges, address);
      var existing := ActiveClustersOf(t.rows, members);
      var canonical := CanonicalCluster(t, members);
      var superseded := existing - {canonical};
      Tables(t.edges,
             if existing == {} then t.clusterSeq + 1 else t.clusterSeq,
             Fold(t.rows, superseded, members + ActiveMembersOf(t.rows, superseded), canonical, now))
  }

  /** Every address about to join `canonical` is active there, in a revoked cluster, or nowhere. */
  ghost predicate Absorbed(rows: Rows, revoked: set<nat>, joined: set<string>, canonical: nat) {
    forall c, a :: In(rows, c, a) && a in joined ==> c == canonical || c in revoked
  }

  lemma FoldActive(rows: Rows, revoked: set<nat>, joined: set<string>, canonical: nat, now: int, c: nat, a: string)
    requires canonical !in revoked
    ensures In(Fold(rows, revoked, joined, canonical, now), c, a) <==>
            (c == canonical && a in joined) || (In(rows, c, a) && c !in revoked)
  {
  }

  lemma FoldKeepsOneActive(rows: Rows, revoked: set<nat>, joined: set<string>, canonical: nat, now: int)
    requires OneActive(rows) && canonical !in revoked && Absorbed(rows, revoked, joined, canonical)
    ensures OneActive(Fold(rows, revoked, joined, canonical, now))
  {
    var after := Fold(rows, revoked, joined, canonical, now);
    forall a, c, d | In(after, c, a) && In(after, d, a)
      ensures c == d
    {
      FoldActive(rows, revoked, joined, canonical, now, c, a);
      FoldActive(rows, revoked, joined, canonical, now, d, a);
    }
  }

  // ----- Every version of the membership table -----

  ghost predicate ClusterActive(rows: Rows, cluster: nat) {
    exists address :: In(rows, cluster, address)
  }

  /** A wallet's cluster id never rises from an earlier version to a later one. */
  ghost predicate IdsFall(earlier: Rows, later: Rows) {
    forall a, c: nat, d: nat :: In(earlier, c, a) && In(later, d, a) ==> d <= c
  }

  /** The clusters that were active and no longer are. */
  ghost predicate RetiredIn(earlier: Rows, later: Rows, retired: set<nat>) {
    forall c: nat :: ClusterActive(earlier, c) && !ClusterActive(later, c) ==> c in retired
  }

  /**
    * What holds of all versions of the table, the ones inside a transaction included: one active row per
    * wallet, no row dropped, ids only fall, and a cluster that stopped being active never is again. `home`
    * remembers the last active cluster of every wallet, `retired` the clusters given up.
    */
  ghost predicate Chronicle(versions: seq<Rows>, home: map<string, nat>, retired: set<nat>) {
    && |versions| > 0
    && (forall i | 0 <= i < |versions| :: OneActive(versions[i]) && AtHomeOrAbove(versions[i], home))
    && (forall i, j | 0 <= i < j < |versions| :: versions[i].Keys <= versions[j].Keys && IdsFall(versions[i], versions[j]))
    && (forall i, j | 0 <= i < j < |versions| :: RetiredIn(versions[i], versions[j], retired))
    && (forall i, j, k | 0 <= i < j < k < |versions| :: StaysRetired(versions[i], versions[j], versions[k]))
    && AtHome(versions[|versions| - 1], home) && NoneActive(versions[|versions| - 1], retired)
  }

  ghost predicate AtHomeOrAbove(rows: Rows, home: map<string, nat>) {
    forall c: nat, a :: In(rows, c, a) ==> a in home && home[a] <= c
  }

  ghost predicate AtHome(rows: Rows, home: map<string, nat>) {
    forall c: nat, a :: In(rows, c, a) ==> a in home && home[a] == c
  }

  ghost predicate NoneActive(rows: Rows, clusters: set<nat>) {
    forall c | c in clusters :: !ClusterActive(rows, c)
  }

  ghost predicate StaysRetired(first: Rows, second: Rows, third: Rows) {
    forall c: nat :: ClusterActive(first, c) && !ClusterActive(second, c) ==> !ClusterActive(third, c)
  }

  /** What a write must respect to become the next version. */
  ghost predicate Follows(last: Rows, home: map<string, nat>, retired: set<nat>,
                          next: Rows, newHome: map<string, nat>, newRetired: set<nat>) {
    && OneActive(next) && last.Keys <= next.Keys
    && (forall a | a in home :: a in newHome && newHome[a] <= home[a]) && AtHome(next, newHome)
    && retired <= newRetired && RetiredIn(last, next, newRetired) && NoneActive(next, newRetired)
  }

  lemma FollowsEarlier(earlier: Rows, last: Rows, home: map<string, nat>, retired: set<nat>,
                       next: Rows, newHome: map<string, nat>, newRetired: set<nat>)
    requires Follows(last, home, retired, next, newHome, newRetired)
    requires AtHomeOrAbove(earlier, home) && (earlier == last || RetiredIn(earlier, last, retired))
    ensures AtHomeOrAbove(earlier, newHome) && IdsFall(earlier, next) && RetiredIn(earlier, next, newRetired)
  {
    hide In, ClusterActive;
  }

  lemma RetiredStay(first: Rows, second: Rows, next: Rows, retired: set<nat>)
    requires RetiredIn(first, second, retired) && NoneActive(next, retired)
    ensures StaysRetired(first, second, next)
  {
    hide ClusterActive;
  }

  lemma ChronicleGrows(versions: seq<Rows>, home: map<string, nat>, retired: set<nat>,
                       next: Rows, newHome: map<string, nat>, newRetired: set<nat>)
    requires Chronicle(versions, home, retired)
    requires Follows(versions[|versions| - 1], home, retired, next, newHome, newRetired)
    ensures Chronicle(versions + [next], newHome, newRetired)
  {
    hide In, OneActive, AtHomeOrAbove, AtHome, IdsFall, RetiredIn, NoneActive, StaysRetired;
    var n, all := |versions|, versions + [next];
    var last := versions[n - 1];
    assert OneActive(next) && last.Keys <= next.Keys && AtHome(next, newHome) && NoneActive(next, newRetired);
    AtHomeIsAbove(next, newHome);
    forall i | 0 <= i < n
      ensures AtHomeOrAbove(versions[i], newHome) && IdsFall(versions[i], next) && RetiredIn(versions[i], next, newRetired)
    {
      FollowsEarlier(versions[i], last, home, retired, next, newHome, newRetired);
    }
    forall i, j | 0 <= i < j < n
      ensures RetiredIn(versions[i], versions[j], newRetired) && StaysRetired(versions[i], versions[j], next)
    {
      MoreRetired(versions[i], versions[j], retired, newRetired);
      RetiredStay(versions[i], versions[j], next, newRetired);
    }
    forall i | 0 <= i <= n
      ensures OneActive(all[i]) && AtHomeOrAbove(all[i], newHome)
    {
    }
    forall i, j | 0 <= i < j <= n
      ensures all[i].Keys <= all[j].Keys && IdsFall(all[i], all[j]) && RetiredIn(all[i], all[j], newRetired)
    {
      assert i < n - 1 ==> versions[i].Keys <= last.Keys;
    }
  }

  lemma AtHomeIsAbove(rows: Rows, home: map<string, nat>)
    requires AtHome(rows, home)
    ensures AtHomeOrAbove(rows, home)
  {
  }

  lemma MoreRetired(earlier: Rows, later: Rows, retired: set<nat>, more: set<nat>)
    requires RetiredIn(earlier, later, retired) && retired <= more
    ensures RetiredIn(earlier, later, more)
  {
  }

  /** Where wallets are at home once `moved` have joined `canonical`. */
  ghost function Rehomed(home: map<string, nat>, moved: set<string>, canonical: nat): map<string, nat> {
    map a | a in home.Keys + moved :: if a in moved then canonical else home[a]
  }

  lemma RehomedTwice(home: map<string, nat>, moved: set<string>, more: set<string>, canonical: nat)
    ensures Rehomed(Rehomed(home, moved, canonical), more, canonical) == Rehomed(home, moved + more, canonical)
  {
  }

  /** Activating one more wallet in a cluster that is not above its home. */
  lemma UpsertFollows(rows: Rows, home: map<string, nat>, retired: set<nat>, cluster: nat, address: string)
    requires OneActive(rows) && AtHome(rows, home) && NoneActive(rows, retired) && cluster !in retired
    requires forall c | In(rows, c, address) :: c == cluster
    requires address in home ==> cluster <= home[address]
    ensures Follows(rows, home, retired, rows[(cluster, address) := Membership(MEMBERSHIP_THRESHOLD, None)],
                    Rehomed(home, {address}, cluster), retired)
  {
    var next := rows[(cluster, address) := Membership(MEMBERSHIP_THRESHOLD, None)];
    assert forall c, a :: In(next, c, a) <==> In(rows, c, a) || (c == cluster && a == address);
    forall c: nat | ClusterActive(rows, c)
      ensures ClusterActive(next, c)
    {
      var a :| In(rows, c, a);
      assert In(next, c, a);
    }
  }

  /** The active rows of one cluster revoked. */
  function Revoked(rows: Rows, s: nat, now: int): Rows {
    map key | key in rows ::
      if key.0 == s && rows[key].revokedAt.None? then rows[key].(revokedAt := Some(now)) else rows[key]
  }

  lemma RevocationFollows(rows: Rows, home: map<string, nat>, retired: set<nat>, s: nat, now: int)
    requires OneActive(rows) && AtHome(rows, home) && NoneActive(rows, retired)
    ensures Follows(rows, home, retired, Revoked(rows, s, now), home, retired + {s})
  {
    var next := Revoked(rows, s, now);
    assert forall c, a :: In(next, c, a) <==> In(rows, c, a) && c != s;
    forall c: nat | ClusterActive(rows, c) && c != s
      ensures ClusterActive(next, c)
    {
      var a :| In(rows, c, a);
      assert In(next, c, a);
    }
  }

  /** The tables as the rebuild transaction updates them, with every intermediate version kept. */
  class ClusterStore {
    var edges: Edges
    var clusterSeq: nat
    var rows: Rows
    /** Every version the membership table has had, one per write. */
    ghost var versions: seq<Rows>
    ghost var home: map<string, nat>
    ghost var retired: set<nat>

    ghost function State(): Tables
      reads this
    {
      Tables(edges, clusterSeq, rows)
    }

    ghost predicate Valid()
      reads this
    {
      && IdsIssued(State())
      && Chronicle(versions, home, retired) && versions[|versions| - 1] == rows
      && forall c | c in retired :: c <= clusterSeq
    }

    /** Between transactions every wallet that was ever active is active. */
    ghost predicate Settled()
      reads this
    {
      forall a | a in home :: In(rows, home[a], a)
    }

    constructor ()
      ensures Valid() && Settled() && State() == EMPTY
    {
      edges, clusterSeq, rows := map[], 0, map[];
      versions, home, retired := [map[]], map[], {};
    }

    method StoreEdge(key: EdgeKey, components: EdgeComponents)
      requires Valid() && Settled()
      modifies this`edges
      ensures Valid() && Settled()
      ensures State() == WithEdge(old(State()), key, components)
    {
      var confidence := ScoreEdgeConfidence(components);
      if key !in edges {
        edges := edges[key := confidence];
      }
    }

    method Write(next: Rows, ghost newHome: map<string, nat>, ghost newRetired: set<nat>)
      requires Valid() && Follows(rows, home, retired, next, newHome, newRetired)
      requires forall key | key in next :: 1 <= key.0 <= clusterSeq
      requires forall c | c in newRetired :: c <= clusterSeq
      modifies this`rows, this`versions, this`home, this`retired
      ensures Valid() && rows == next && versions == old(versions) + [next] && home == newHome && retired == newRetired
    {
      hide Chronicle, Follows;
      ChronicleGrows(versions, home, retired, next, newHome, newRetired);
      rows := next;
      versions, home, retired := versions + [next], newHome, newRetired;
    }

    /** What the chronicle says of the current version. */
    lemma Current()
      requires Valid()
      ensures OneActive(rows) && AtHome(rows, home) && NoneActive(rows, retired)
    {
    }

    method UpsertMembership(cluster: nat, address: string)
      requires Valid() && 1 <= cluster <= clusterSeq && cluster !in retired
      requires forall c | In(rows, c, address) :: c == cluster
      requires address in home ==> cluster <= home[address]
      modifies this`rows, this`versions, this`home, this`retired
      ensures Valid() && old(versions) <= versions
      ensures rows == old(rows)[(cluster, address) := Membership(MEMBERSHIP_THRESHOLD, None)]
      ensures home == Rehomed(old(home), {address}, cluster) && retired == old(retired)
    {
      hide Follows, Chronicle, OneActive, AtHome, NoneActive;
      Current();
      UpsertFollows(rows, home, retired, cluster, address);
      Write(rows[(cluster, address) := Membership(MEMBERSHIP_THRESHOLD, None)], Rehomed(home, {address}, cluster), retired);
    }

    method UpsertAll(addresses: set<string>, canonical: nat,
                     ghost start: Rows, ghost revoked: set<nat>, ghost joined: set<string>, ghost now: int)
      requires Valid() && 1 <= canonical <= clusterSeq && canonical !in revoked && canonical !in retired
      requires rows == Fold(start, revoked, joined, canonical, now)
      requires Absorbed(start, revoked, addresses, canonical)
      requires forall a | a in addresses && a in home :: canonical <= home[a]
      modifies this`rows, this`versions, this`home, this`retired
      ensures Valid() && old(versions) <= versions
      ensures rows == Fold(start, revoked, joined + addresses, canonical, now)
      ensures home == Rehomed(old(home), addresses, canonical) && retired == old(retired)
    {
      hide Chronicle, Fold;
      var left := addresses;
      ghost var done: set<string> := {};
      assert joined + done == joined;
      assert Rehomed(home, {}, canonical) == home;
      while left != {}
        invariant Valid() && old(versions) <= versions
        invariant left <= addresses && done == addresses - left
        invariant rows == Fold(start, revoked, joined + done, canonical, now)
        invariant home == Rehomed(old(home), done, canonical) && retired == old(retired)
      {
        var a :| a in left;
        FoldActiveAll(start, revoked, joined + done, canonical, now);
        UpsertMembership(canonical, a);
        FoldJoin(start, revoked, joined + done, canonical, now, a);
        RehomedTwice(old(home), done, {a}, canonical);
        assert joined + done + {a} == joined + (done + {a});
        done := done + {a};
        left := left - {a};
      }
      assert done == addresses;
    }

    /** The revoking update of one superseded cluster. */
    method RevokeCluster(s: nat, now: int)
      requires Valid() && s <= clusterSeq
      modifies this`rows, this`versions, this`home, this`retired
      ensures Valid() && old(versions) <= versions
      ensures rows == Revoked(old(rows), s, now) && home == old(home) && retired == old(retired) + {s}
    {
      hide Follows, Chronicle, OneActive, AtHome, NoneActive;
      Current();
      RevocationFollows(rows, home, retired, s, now);
      Write(Revoked(rows, s, now), home, retired + {s});
    }

    /** One superseded cluster: its active rows are revoked, then its members join the canonical one. */
    method Supersede(s: nat, canonical: nat, now: int, ghost start: Rows, ghost revoked: set<nat>)
      requires Valid() && 1 <= canonical < s <= clusterSeq && canonical !in revoked + retired && s !in revoked
      requires OneActive(start)
      requires rows == Fold(start, revoked, ActiveMembersOf(start, revoked), canonical, now)
      modifies this`rows, this`versions, this`home, this`retired
      ensures Valid() && old(versions) <= versions
      ensures rows == Fold(start, revoked + {s}, ActiveMembersOf(start, revoked + {s}), canonical, now)
      ensures home == Rehomed(old(home), ActiveMembersOf(start, {s}), canonical) && retired == old(retired) + {s}
    {
      hide Chronicle, Fold, ActiveMembersOf, OneActive, Absorbed, Revoked, NoneActive;
      ghost var joined := ActiveMembersOf(start, revoked);
      var moved := ActiveMembersOf(rows, {s});
      MovedIsStart(start, revoked, joined, canonical, now, s);
      Current();
      ActiveIsMember(rows, s);
      FoldRevoke(start, revoked, joined, canonical, now, s);
      RevokeCluster(s, now);
      AbsorbedBySuperseding(start, revoked, s, moved, canonical);
      UpsertAll(moved, canonical, start, revoked + {s}, joined, now);
      MembersOfMore(start, revoked, s);
    }

    method CollectStar(address: string) returns (members: set<string>)
      ensures members == StarMembers(edges, address)
    {
      var strong := StrongEdges(edges, address);
      members := {address};
      var pending := strong;
      while pending != {}
        invariant pending <= strong
        invariant members == {address} + (set k | k in strong - pending :: k.fromAddress)
                                       + (set k | k in strong - pending :: k.toAddress)
      {
        var k :| k in pending;
        members := members + {k.fromAddress, k.toAddress};
        pending := pending - {k};
      }
      assert strong - pending == strong;
    }

    /** The smallest existing id, or a fresh one. */
    method PickCanonical(existing: set<nat>) returns (canonical: nat)
      requires Valid() && forall c | c in existing :: 1 <= c <= clusterSeq && c !in retired
      modifies this`clusterSeq
      ensures Valid() && 1 <= canonical <= clusterSeq && canonical !in retired
      ensures canonical == if existing == {} then old(clusterSeq) + 1 else MinOf(existing)
      ensures clusterSeq == if existing == {} then old(clusterSeq) + 1 else old(clusterSeq)
    {
      if existing == {} {
        clusterSeq := clusterSeq + 1;
        canonical := clusterSeq;
      } else {
        canonical := MinOf(existing);
      }
    }

    method SupersedeAll(superseded: set<nat>, canonical: nat, now: int)
      requires Valid() && 1 <= canonical <= clusterSeq && canonical !in retired
      requires forall s | s in superseded :: canonical < s <= clusterSeq
      modifies this`rows, this`versions, this`home, this`retired
      ensures Valid() && old(versions) <= versions
      ensures rows == Fold(old(rows), superseded, ActiveMembersOf(old(rows), superseded), canonical, now)
      ensures home == Rehomed(old(home), ActiveMembersOf(old(rows), superseded), canonical)
      ensures retired == old(retired) + superseded
    {
      hide Chronicle, Fold, ActiveMembersOf, OneActive;
      ghost var start := rows;
      Current();
      ghost var revoked: set<nat> := {};
      var rest := superseded;
      NothingMoved(start, home, canonical, now);
      while rest != {}
        invariant Valid() && old(versions) <= versions
        invariant rest <= superseded && revoked == superseded - rest
        invariant rows == Fold(start, revoked, ActiveMembersOf(start, revoked), canonical, now)
        invariant home == Rehomed(old(home), ActiveMembersOf(start, revoked), canonical)
        invariant retired == old(retired) + revoked
      {
        var s :| s in rest;
        Supersede(s, canonical, now, start, revoked);
        MembersOfMore(start, revoked, s);
        RehomedTwice(old(home), ActiveMembersOf(start, revoked), ActiveMembersOf(start, {s}), canonical);
        revoked := revoked + {s};
        rest := rest - {s};
      }
      assert revoked == superseded;
    }

    method RebuildClusterFor(address: string, now: int) returns (cluster: Option<nat>)
      requires Valid() && Settled()
      modifies this`clusterSeq, this`rows, this`versions, this`home, this`retired
      ensures Valid() && Settled() && old(versions) <= versions
      ensures State() == Rebuilt(old(State()), address, now)
      ensures cluster.None? <==> StrongEdges(old(edges), address) == {}
      ensures cluster.Some? ==> forall a | a in StarMembers(edges, address) :: In(rows, cluster.value, a)
    {
      hide Chronicle, Fold, ActiveMembersOf, OneActive, StarMembers, ActiveClustersOf, In, Absorbed, Rehomed;
      if StrongEdges(edges, address) == {} {
        return None;
      }
      ghost var start, home0 := rows, home;
      var members := CollectStar(address);
      var existing := ActiveClustersOf(rows, members);
      Current();
      ExistingIds(State(), members, home, retired);
      var canonical := PickCanonical(existing);
      ghost var superseded := existing - {canonical};
      ghost var moved := ActiveMembersOf(start, superseded);
      SupersedeAll(existing - {canonical}, canonical, now);
      AbsorbedByStar(start, members, superseded, canonical);
      MembersAreAbove(start, members, home0, moved, canonical);
      UpsertAll(members, canonical, start, superseded, moved, now);
      RehomedTwice(home0, moved, members, canonical);
      assert moved + members == members + moved;
      SettledAgain(start, superseded, members, canonical, now, home0);
      FoldActiveAll(start, superseded, members + moved, canonical, now);
      cluster := Some(canonical);
    }
  }

  /** The clusters a rebuild finds are issued and not retired, and no star wallet is at home elsewhere. */
  lemma ExistingIds(t: Tables, members: set<string>, home: map<string, nat>, retired: set<nat>)
    requires IdsIssued(t) && NoneActive(t.rows, retired)
    ensures forall c | c in ActiveClustersOf(t.rows, members) :: 1 <= c <= t.clusterSeq && c !in retired
  {
    forall c | c in ActiveClustersOf(t.rows, members)
      ensures 1 <= c <= t.clusterSeq && c !in retired
    {
      var key :| key in t.rows && t.rows[key].revokedAt.None? && key.1 in members && key.0 == c;
      assert In(t.rows, c, key.1);
    }
  }

  lemma MembersAreAbove(start: Rows, members: set<string>, home: map<string, nat>, moved: set<string>, canonical: nat)
    requires forall a | a in home :: In(start, home[a], a)
    requires var existing := ActiveClustersOf(start, members);
             forall c | c in existing :: canonical <= c
    ensures forall a | a in members && a in Rehomed(home, moved, canonical) :: canonical <= Rehomed(home, moved, canonical)[a]
  {
    forall a | a in members && a in home
      ensures canonical <= home[a]
    {
      assert (home[a], a) in start;
      assert home[a] in ActiveClustersOf(start, members);
    }
  }

  lemma SettledAgain(start: Rows, superseded: set<nat>, members: set<string>, canonical: nat, now: int, home: map<string, nat>)
    requires canonical !in superseded && forall a | a in home :: In(start, home[a], a)
    ensures var joined := members + ActiveMembersOf(start, superseded);
            var after := Rehomed(home, ActiveMembersOf(start, superseded) + members, canonical);
            forall a | a in after :: In(Fold(start, superseded, joined, canonical, now), after[a], a)
  {
    hide Fold;
    var moved := ActiveMembersOf(start, superseded);
    FoldActiveAll(start, superseded, members + moved, canonical, now);
    forall a | a in home && a !in moved
      ensures home[a] !in superseded
    {
      assert (home[a], a) in start;
    }
  }

  lemma NothingMoved(start: Rows, home: map<string, nat>, canonical: nat, now: int)
    ensures ActiveMembersOf(start, {}) == {} && start == Fold(start, {}, {}, canonical, now)
    ensures Rehomed(home, {}, canonical) == home
  {
  }

  lemma MembersOfMore(start: Rows, revoked: set<nat>, s: nat)
    ensures ActiveMembersOf(start, revoked + {s}) == ActiveMembersOf(start, revoked) + ActiveMembersOf(start, {s})
  {
  }

  /** Folding other clusters leaves the active rows of `s` as they were. */
  lemma MovedIsStart(start: Rows, revoked: set<nat>, joined: set<string>, canonical: nat, now: int, s: nat)
    requires canonical !in revoked && s !in revoked && s != canonical
    ensures ActiveMembersOf(Fold(start, revoked, joined, canonical, now), {s}) == ActiveMembersOf(start, {s})
  {
    hide Fold;
    var rows := Fold(start, revoked, joined, canonical, now);
    FoldActiveAll(start, revoked, joined, canonical, now);
    ActiveIsMember(rows, s);
    ActiveIsMember(start, s);
  }

  lemma ActiveIsMember(rows: Rows, s: nat)
    ensures forall a :: a in ActiveMembersOf(rows, {s}) <==> In(rows, s, a)
  {
    forall a
      ensures a in ActiveMembersOf(rows, {s}) <==> In(rows, s, a)
    {
      if a in ActiveMembersOf(rows, {s}) {
        var key :| key in rows && rows[key].revokedAt.None? && key.0 in {s} && key.1 == a;
      }
      if In(rows, s, a) {
        assert (s, a) in rows;
      }
    }
  }

  lemma AbsorbedBySuperseding(start: Rows, revoked: set<nat>, s: nat, moved: set<string>, canonical: nat)
    requires OneActive(start) && moved == ActiveMembersOf(start, {s})
    ensures Absorbed(start, revoked + {s}, moved, canonical)
  {
    AbsorbedByRevocation(start, {s}, moved, canonical);
  }

  lemma AbsorbedByStar(rows: Rows, members: set<string>, superseded: set<nat>, canonical: nat)
    requires superseded == ActiveClustersOf(rows, members) - {canonical}
    ensures Absorbed(rows, superseded, members, canonical)
  {
    forall c, a | In(rows, c, a) && a in members
      ensures c in ActiveClustersOf(rows, members)
    {
      assert (c, a) in rows;
    }
  }

  lemma FoldJoin(rows: Rows, revoked: set<nat>, joined: set<string>, canonical: nat, now: int, a: string)
    ensures Fold(rows, revoked, joined + {a}, canonical, now) ==
            Fold(rows, revoked, joined, canonical, now)[(canonical, a) := Membership(MEMBERSHIP_THRESHOLD, None)]
  {
  }

  lemma FoldRevoke(rows: Rows, revoked: set<nat>, joined: set<string>, canonical: nat, now: int, s: nat)
    requires s != canonical
    ensures Fold(rows, revoked + {s}, joined, canonical, now) == Revoked(Fold(rows, revoked, joined, canonical, now), s, now)
  {
  }

  lemma FoldActiveAll(rows: Rows, revoked: set<nat>, joined: set<string>, canonical: nat, now: int)
    requires canonical !in revoked
    ensures forall c, a :: In(Fold(rows, revoked, joined, canonical, now), c, a) <==>
                           (c == canonical && a in joined) || (In(rows, c, a) && c !in revoked)
  {
    forall c, a {
      FoldActive(rows, revoked, joined, canonical, now, c, a);
    }
  }

  lemma AbsorbedByRevocation(rows: Rows, revoked: set<nat>, joined: set<string>, canonical: nat)
    requires OneActive(rows)
    requires joined <= ActiveMembersOf(rows, revoked)
    ensures Absorbed(rows, revoked, joined, canonical)
  {
    forall c, a | In(rows, c, a) && a in joined
      ensures c in revoked
    {
      var key :| key in rows && rows[key].revokedAt.None? && key.0 in revoked && key.1 == a;
      assert In(rows, key.0, a);
    }
  }

  function WithEdge(t: Tables, key: EdgeKey, components: EdgeComponents): Tables {
    if key in t.edges then t else t.(edges := t.edges[key := Confidence(components)])
  }
}
