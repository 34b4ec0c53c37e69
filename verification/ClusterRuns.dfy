/** Every run of edge insertions and cluster rebuilds, from an empty table. */
module ClusterRuns {
  import opened Util
  import opened Connectivity
  import opened WalletClusters

  /** An aborted rebuild leaves no row behind, but a sequence value it drew stays drawn. */
  datatype Step =
    | StoreEdge(key: EdgeKey, components: EdgeComponents)
    | Rebuild(address: string, now: int)
    | AbortedRebuild(drewClusterId: bool)

  function Next(t: Tables, step: Step): Tables {
    match step
    case StoreEdge(key, components) => WithEdge(t, key, components)
    case Rebuild(address, now) => Rebuilt(t, address, now)
    case AbortedRebuild(drew) => if drew then t.(clusterSeq := t.clusterSeq + 1) else t
  }

  function Run(steps: seq<Step>): Tables {
    if steps == [] then EMPTY else Next(Run(steps[..|steps| - 1]), steps[|steps| - 1])
  }

  /** The links of one star: the strong edges of one wallet at the time it is rebuilt. */
  ghost function StarLinks(edges: Edges, address: string): Links {
    set k | k in StrongEdges(edges, address) :: (k.fromAddress, k.toAddress)
  }

  /** The union of the stars rebuilt so far. */
  ghost function Joined(steps: seq<Step>): Links {
    if steps == [] then {}
    else
      var before := Joined(steps[..|steps| - 1]);
      match steps[|steps| - 1]
      case Rebuild(address, _) => before + StarLinks(Run(steps[..|steps| - 1]).edges, address)
      case _ => before
  }

  /** All edges at or above the threshold. */
  ghost function StrongLinks(edges: Edges): Links {
    set k | k in edges && edges[k] >= MEMBERSHIP_THRESHOLD :: (k.fromAddress, k.toAddress)
  }

  /** The active clusters are exactly the components of `links`. */
  ghost predicate Components(rows: Rows, links: Links) {
    && (forall a :: IsActive(rows, a) <==> a in Nodes(links))
    && (forall c, a, b :: In(rows, c, a) && In(rows, c, b) ==> Connected(links, a, b))
    && (forall l, c | l in links :: In(rows, c, l.0) <==> In(rows, c, l.1))
  }

  ghost predicate Inv(t: Tables, links: Links) {
    IdsIssued(t) && OneActive(t.rows) && Components(t.rows, links)
  }

  // ----- One rebuild -----

  /** A cluster some wallet of the star is active in. */
  ghost predicate Touched(rows: Rows, members: set<string>, cluster: nat) {
    exists m :: m in members && In(rows, cluster, m)
  }

  ghost predicate Absorbs(rows: Rows, members: set<string>, a: string) {
    a in members || exists d :: Touched(rows, members, d) && In(rows, d, a)
  }

  /** Star members and everyone in a touched cluster end in `canonical`; nobody else moves. */
  ghost predicate Merges(rows: Rows, members: set<string>, canonical: nat, after: Rows) {
    && (forall c, a :: In(after, c, a) <==> if Absorbs(rows, members, a) then c == canonical else In(rows, c, a))
    && (forall a :: In(rows, canonical, a) ==> Touched(rows, members, canonical))
  }

  lemma TouchedIsExisting(rows: Rows, members: set<string>, c: nat)
    ensures Touched(rows, members, c) <==> c in ActiveClustersOf(rows, members)
  {
    if Touched(rows, members, c) {
      var m :| m in members && In(rows, c, m);
      assert (c, m) in rows;
    }
    if c in ActiveClustersOf(rows, members) {
      var key :| key in rows && rows[key].revokedAt.None? && key.1 in members && key.0 == c;
      assert In(rows, c, key.1);
    }
  }

  lemma MovedIsActive(rows: Rows, clusters: set<nat>, a: string)
    ensures a in ActiveMembersOf(rows, clusters) <==> exists d :: d in clusters && In(rows, d, a)
  {
    if a in ActiveMembersOf(rows, clusters) {
      var key :| key in rows && rows[key].revokedAt.None? && key.0 in clusters && key.1 == a;
      assert key.0 in clusters && In(rows, key.0, a);
    }
    if exists d :: d in clusters && In(rows, d, a) {
      var d :| d in clusters && In(rows, d, a);
      assert (d, a) in rows;
    }
  }

  lemma FoldMerges(rows: Rows, members: set<string>, canonical: nat, now: int)
    requires OneActive(rows)
    requires forall a :: In(rows, canonical, a) ==> Touched(rows, members, canonical)
    ensures var superseded := ActiveClustersOf(rows, members) - {canonical};
            var after := Fold(rows, superseded, members + ActiveMembersOf(rows, superseded), canonical, now);
            OneActive(after) && Merges(rows, members, canonical, after)
  {
    var superseded := ActiveClustersOf(rows, members) - {canonical};
    var moved := ActiveMembersOf(rows, superseded);
    var after := Fold(rows, superseded, members + moved, canonical, now);
    AbsorbedByStar(rows, members, superseded, canonical);
    AbsorbedByRevocation(rows, superseded, moved, canonical);
    FoldKeepsOneActive(rows, superseded, members + moved, canonical, now);
    forall c, a
      ensures In(after, c, a) <==> if Absorbs(rows, members, a) then c == canonical else In(rows, c, a)
    {
      FoldActive(rows, superseded, members + moved, canonical, now, c, a);
      MovedIsActive(rows, superseded, a);
      TouchedIsExisting(rows, members, c);
      if Absorbs(rows, members, a) && a !in members {
        var d :| Touched(rows, members, d) && In(rows, d, a);
        TouchedIsExisting(rows, members, d);
      }
      if a in moved && a !in members {
        var d :| d in superseded && In(rows, d, a);
        TouchedIsExisting(rows, members, d);
      }
    }
  }

  lemma RebuildMerges(t: Tables, address: string, now: int)
    requires IdsIssued(t) && OneActive(t.rows) && StrongEdges(t.edges, address) != {}
    ensures var members := StarMembers(t.edges, address);
            var after := Rebuilt(t, address, now);
            && IdsIssued(after) && OneActive(after.rows)
            && Merges(t.rows, members, CanonicalCluster(t, members), after.rows)
  {
    var members := StarMembers(t.edges, address);
    var existing := ActiveClustersOf(t.rows, members);
    var canonical := CanonicalCluster(t, members);
    forall a | In(t.rows, canonical, a)
      ensures Touched(t.rows, members, canonical)
    {
      assert (canonical, a) in t.rows;
      TouchedIsExisting(t.rows, members, canonical);
    }
    if existing != {} {
      TouchedIsExisting(t.rows, members, canonical);
      var m :| m in members && In(t.rows, canonical, m);
      assert (canonical, m) in t.rows;
    }
    FoldMerges(t.rows, members, canonical, now);
  }

  lemma StarNodes(edges: Edges, address: string)
    requires StrongEdges(edges, address) != {}
    ensures Nodes(StarLinks(edges, address)) == StarMembers(edges, address)
  {
    var nodes := Nodes(StarLinks(edges, address));
    forall k | k in StrongEdges(edges, address)
      ensures k.fromAddress in nodes && k.toAddress in nodes && address in nodes
    {
      assert (k.fromAddress, k.toAddress) in StarLinks(edges, address);
    }
    var k :| k in StrongEdges(edges, address);
    assert address in nodes;
  }

  lemma NodesUnion(a: Links, b: Links)
    ensures Nodes(a + b) == Nodes(a) + Nodes(b)
  {
    forall x | x in Nodes(a) + Nodes(b)
      ensures x in Nodes(a + b)
    {
      var l :| (l in a || l in b) && (l.0 == x || l.1 == x);
      assert l in a + b;
    }
  }

  lemma MemberReachesHub(edges: Edges, links: Links, address: string, m: string)
    requires StarLinks(edges, address) <= links && m in StarMembers(edges, address)
    ensures Connected(links, m, address)
  {
    if m != address {
      var k :| k in StrongEdges(edges, address) && (k.fromAddress == m || k.toAddress == m);
      assert (k.fromAddress, k.toAddress) in links;
    }
    LinkConnects(links, m, address);
  }

  /** Every wallet the rebuild absorbs is connected to the rebuilt one. */
  lemma AbsorbedReachesHub(t: Tables, links: Links, address: string, a: string)
    requires Components(t.rows, links) && Absorbs(t.rows, StarMembers(t.edges, address), a)
    ensures Connected(links + StarLinks(t.edges, address), a, address)
  {
    var more := links + StarLinks(t.edges, address);
    var members := StarMembers(t.edges, address);
    if a in members {
      MemberReachesHub(t.edges, more, address, a);
    } else {
      var d :| Touched(t.rows, members, d) && In(t.rows, d, a);
      var m :| m in members && In(t.rows, d, m);
      ConnectedMonotone(links, more, a, m);
      MemberReachesHub(t.edges, more, address, m);
      ConnectedTransitive(more, a, m, address);
    }
  }

  lemma MergeActivates(rows: Rows, members: set<string>, canonical: nat, after: Rows, a: string)
    requires Merges(rows, members, canonical, after)
    ensures IsActive(after, a) <==> a in members || IsActive(rows, a)
  {
    if Absorbs(rows, members, a) {
      assert In(after, canonical, a);
    } else if IsActive(rows, a) {
      var c :| In(rows, c, a);
      assert In(after, c, a);
    }
  }

  lemma MergeIsSound(t: Tables, links: Links, address: string, canonical: nat, after: Rows, c: nat, a: string, b: string)
    requires Components(t.rows, links) && Merges(t.rows, StarMembers(t.edges, address), canonical, after)
    requires In(after, c, a) && In(after, c, b)
    ensures Connected(links + StarLinks(t.edges, address), a, b)
  {
    var more := links + StarLinks(t.edges, address);
    if c == canonical {
      AbsorbedReachesHub(t, links, address, a);
      AbsorbedReachesHub(t, links, address, b);
      ConnectedSymmetric(more, b, address);
      ConnectedTransitive(more, a, address, b);
    } else {
      ConnectedMonotone(links, more, a, b);
    }
  }

  /** Two wallets of one cluster are absorbed together. */
  lemma AbsorbedTogether(rows: Rows, members: set<string>, x: string, y: string)
    requires IsActive(rows, x) && forall c :: In(rows, c, x) <==> In(rows, c, y)
    requires Absorbs(rows, members, x)
    ensures Absorbs(rows, members, y)
  {
    if x in members {
      var d :| In(rows, d, x);
      assert Touched(rows, members, d) && In(rows, d, y);
    } else {
      var d :| Touched(rows, members, d) && In(rows, d, x);
      assert In(rows, d, y);
    }
  }

  lemma MergeIsComplete(t: Tables, links: Links, address: string, canonical: nat, after: Rows, l: (string, string))
    requires Components(t.rows, links) && Merges(t.rows, StarMembers(t.edges, address), canonical, after)
    requires l in links + StarLinks(t.edges, address)
    ensures forall c :: In(after, c, l.0) <==> In(after, c, l.1)
  {
    var members := StarMembers(t.edges, address);
    if l in links {
      assert l.0 in Nodes(links) && l.1 in Nodes(links);
      assert forall c :: In(t.rows, c, l.0) <==> In(t.rows, c, l.1);
      if Absorbs(t.rows, members, l.0) { AbsorbedTogether(t.rows, members, l.0, l.1); }
      if Absorbs(t.rows, members, l.1) { AbsorbedTogether(t.rows, members, l.1, l.0); }
    } else {
      assert l.0 in members && l.1 in members;
    }
  }

  lemma RebuildKeepsInv(t: Tables, links: Links, address: string, now: int)
    requires Inv(t, links)
    ensures Inv(Rebuilt(t, address, now), links + StarLinks(t.edges, address))
  {
    var star := StarLinks(t.edges, address);
    if StrongEdges(t.edges, address) == {} {
      assert links + star == links;
    } else {
      RebuildMerges(t, address, now);
      var members := StarMembers(t.edges, address);
      MergeKeepsComponents(t, links, address, CanonicalCluster(t, members), Rebuilt(t, address, now).rows);
    }
  }

  lemma MergeKeepsComponents(t: Tables, links: Links, address: string, canonical: nat, after: Rows)
    requires Components(t.rows, links) && Merges(t.rows, StarMembers(t.edges, address), canonical, after)
    requires StrongEdges(t.edges, address) != {}
    ensures Components(after, links + StarLinks(t.edges, address))
  {
    var star := StarLinks(t.edges, address);
    StarNodes(t.edges, address);
    NodesUnion(links, star);
    forall a
      ensures IsActive(after, a) <==> a in Nodes(links + star)
    {
      MergeActivates(t.rows, StarMembers(t.edges, address), canonical, after, a);
    }
    forall c, a, b | In(after, c, a) && In(after, c, b)
      ensures Connected(links + star, a, b)
    {
      MergeIsSound(t, links, address, canonical, after, c, a, b);
    }
    forall l | l in links + star
      ensures forall c :: In(after, c, l.0) <==> In(after, c, l.1)
    {
      MergeIsComplete(t, links, address, canonical, after, l);
    }
  }

  lemma {:induction false} RunKeepsInv(steps: seq<Step>)
    ensures Inv(Run(steps), Joined(steps))
  {
    if steps != [] {
      var before := steps[..|steps| - 1];
      RunKeepsInv(before);
      match steps[|steps| - 1]
      case Rebuild(address, now) => RebuildKeepsInv(Run(before), Joined(before), address, now);
      case StoreEdge(_, _) =>
      case AbortedRebuild(_) =>
    }
  }

  // ----- Main results -----

  /** Two wallets share an active cluster exactly when the stars rebuilt so far connect them. */
  lemma ClustersAreStarComponents(steps: seq<Step>, a: string, b: string)
    ensures SameCluster(Run(steps).rows, a, b) <==>
            a in Nodes(Joined(steps)) && b in Nodes(Joined(steps)) && Connected(Joined(steps), a, b)
  {
    RunKeepsInv(steps);
    var rows, links := Run(steps).rows, Joined(steps);
    if SameCluster(rows, a, b) {
      var c :| In(rows, c, a) && In(rows, c, b);
      assert IsActive(rows, a) && IsActive(rows, b);
    }
    if a in Nodes(links) && Connected(links, a, b) {
      assert IsActive(rows, a);
      var c :| In(rows, c, a);
      var inside := ActiveMembersOf(rows, {c});
      assert forall x :: x in inside <==> In(rows, c, x);
      ConnectedStaysInside(links, inside, a, b);
    }
  }

  lemma {:induction false} JoinedWithinStrong(steps: seq<Step>)
    ensures Joined(steps) <= StrongLinks(Run(steps).edges)
  {
    if steps != [] {
      var before := steps[..|steps| - 1];
      JoinedWithinStrong(before);
      forall l | l in StrongLinks(Run(before).edges)
        ensures l in StrongLinks(Run(steps).edges)
      {
        var k :| k in Run(before).edges && Run(before).edges[k] >= MEMBERSHIP_THRESHOLD && l == (k.fromAddress, k.toAddress);
        assert k in Run(steps).edges;
      }
      if steps[|steps| - 1].Rebuild? {
        forall l | l in StarLinks(Run(before).edges, steps[|steps| - 1].address)
          ensures l in StrongLinks(Run(before).edges)
        {
        }
      }
    }
  }

  /** Edge `k` was already stored when one of its endpoints was rebuilt at step `i`. */
  predicate RebuiltAfter(steps: seq<Step>, k: EdgeKey, i: nat) {
    && i < |steps| && steps[i].Rebuild?
    && (steps[i].address == k.fromAddress || steps[i].address == k.toAddress)
    && k in Run(steps[..i]).edges
  }

  lemma NextKeepsEdge(t: Tables, step: Step, k: EdgeKey)
    requires k in t.edges
    ensures k in Next(t, step).edges && Next(t, step).edges[k] == t.edges[k]
  {
  }

  lemma {:induction false} EdgesOnlyGrow(steps: seq<Step>, i: nat, k: EdgeKey)
    requires i <= |steps| && k in Run(steps[..i]).edges
    ensures k in Run(steps).edges && Run(steps).edges[k] == Run(steps[..i]).edges[k]
  {
    if i == |steps| {
      assert steps[..i] == steps;
    } else {
      var before := steps[..|steps| - 1];
      assert before[..i] == steps[..i];
      EdgesOnlyGrow(before, i, k);
      NextKeepsEdge(Run(before), steps[|steps| - 1], k);
    }
  }

  lemma {:induction false} RebuildJoinsEdge(steps: seq<Step>, k: EdgeKey, i: nat)
    requires RebuiltAfter(steps, k, i) && k in Run(steps).edges && Run(steps).edges[k] >= MEMBERSHIP_THRESHOLD
    ensures (k.fromAddress, k.toAddress) in Joined(steps)
  {
    var before := steps[..|steps| - 1];
    EdgesOnlyGrow(steps, i, k);
    if i == |steps| - 1 {
      assert k in StrongEdges(Run(before).edges, steps[i].address);
    } else {
      assert before[..i] == steps[..i];
      EdgesOnlyGrow(before, i, k);
      RebuildJoinsEdge(before, k, i);
    }
  }

  /**
    * Once every strong edge has had an endpoint rebuilt after it was stored, in whatever order, the
    * active clusters are exactly the connected components of the strong edges, and a wallet without
    * a strong edge is in none.
    */
  lemma ClustersAreComponents(steps: seq<Step>, a: string, b: string)
    requires forall k | k in Run(steps).edges && Run(steps).edges[k] >= MEMBERSHIP_THRESHOLD ::
               exists i :: RebuiltAfter(steps, k, i)
    ensures var strong := StrongLinks(Run(steps).edges);
            && (SameCluster(Run(steps).rows, a, b) <==> a in Nodes(strong) && b in Nodes(strong) && Connected(strong, a, b))
            && (IsActive(Run(steps).rows, a) <==> a in Nodes(strong))
  {
    var edges := Run(steps).edges;
    forall l | l in StrongLinks(edges)
      ensures l in Joined(steps)
    {
      var k :| k in edges && edges[k] >= MEMBERSHIP_THRESHOLD && l == (k.fromAddress, k.toAddress);
      var i :| RebuiltAfter(steps, k, i);
      RebuildJoinsEdge(steps, k, i);
    }
    JoinedWithinStrong(steps);
    assert Joined(steps) == StrongLinks(edges);
    ClustersAreStarComponents(steps, a, b);
    RunKeepsInv(steps);
  }

  lemma MergeHistory(rows: Rows, members: set<string>, canonical: nat, after: Rows)
    requires OneActive(rows) && Merges(rows, members, canonical, after)
    requires forall c :: Touched(rows, members, c) ==> canonical <= c
    ensures forall a, c: nat, d: nat :: In(rows, c, a) && In(after, d, a) ==> d <= c
    ensures forall a :: IsActive(rows, a) ==> IsActive(after, a)
    ensures forall c, a :: In(after, c, a) && c != canonical ==> In(rows, c, a)
  {
    forall a, c: nat, d: nat | In(rows, c, a) && In(after, d, a)
      ensures d <= c
    {
      if a in members {
        assert Touched(rows, members, c);
      }
    }
    forall a | IsActive(rows, a)
      ensures IsActive(after, a)
    {
      MergeActivates(rows, members, canonical, after, a);
    }
  }

  /** One rebuild never drops a row, never revives a retired cluster, never raises a wallet's id. */
  lemma RebuildHistory(t: Tables, address: string, now: int)
    requires IdsIssued(t) && OneActive(t.rows)
    ensures var after := Rebuilt(t, address, now);
            && t.rows.Keys <= after.rows.Keys
            && (forall a, c: nat, d: nat :: In(t.rows, c, a) && In(after.rows, d, a) ==> d <= c)
            && (forall a :: IsActive(t.rows, a) ==> IsActive(after.rows, a))
            && (forall c: nat :: Retired(t, c) ==> Retired(after, c))
  {
    if StrongEdges(t.edges, address) != {} {
      RebuildMerges(t, address, now);
      var members := StarMembers(t.edges, address);
      var canonical := CanonicalCluster(t, members);
      forall c: nat | Touched(t.rows, members, c)
        ensures canonical <= c
      {
        TouchedIsExisting(t.rows, members, c);
      }
      MergeHistory(t.rows, members, canonical, Rebuilt(t, address, now).rows);
      if canonical <= t.clusterSeq {
        TouchedIsExisting(t.rows, members, canonical);
      }
    }
  }

  /** Every row of history stays as it was, or is revoked now with its confidence kept, or is active in the canonical cluster. */
  lemma RebuildRewritesRows(t: Tables, address: string, now: int)
    ensures var members, after := StarMembers(t.edges, address), Rebuilt(t, address, now).rows;
            forall key | key in t.rows ::
              || after[key] == t.rows[key]
              || (t.rows[key].revokedAt.None? && after[key] == t.rows[key].(revokedAt := Some(now)) &&
                  key.0 in ActiveClustersOf(t.rows, members) && key.0 != CanonicalCluster(t, members))
              || (key.0 == CanonicalCluster(t, members) && after[key] == Membership(MEMBERSHIP_THRESHOLD, None))
  {
    hide StarMembers, CanonicalCluster, ActiveClustersOf, ActiveMembersOf;
  }

  ghost predicate Retired(t: Tables, cluster: nat) {
    cluster <= t.clusterSeq && forall a :: !In(t.rows, cluster, a)
  }

  /** Along every run rows stay, retired clusters stay retired, and a wallet's cluster id only falls. */
  lemma {:induction false} RunHistory(steps: seq<Step>, i: nat)
    requires i <= |steps|
    ensures var early, late := Run(steps[..i]), Run(steps);
            && early.rows.Keys <= late.rows.Keys && early.clusterSeq <= late.clusterSeq
            && (forall a, c: nat, d: nat :: In(early.rows, c, a) && In(late.rows, d, a) ==> d <= c)
            && (forall a :: IsActive(early.rows, a) ==> IsActive(late.rows, a))
            && (forall c: nat :: Retired(early, c) ==> Retired(late, c))
  {
    RunKeepsInv(steps[..i]);
    if i == |steps| {
      assert steps[..i] == steps;
    } else {
      var before := steps[..|steps| - 1];
      assert before[..i] == steps[..i];
      RunHistory(before, i);
      RunKeepsInv(before);
      if steps[|steps| - 1].Rebuild? {
        RebuildHistory(Run(before), steps[|steps| - 1].address, steps[|steps| - 1].now);
      }
      forall a, c: nat, d: nat | In(Run(steps[..i]).rows, c, a) && In(Run(steps).rows, d, a)
        ensures d <= c
      {
        assert IsActive(Run(before).rows, a);
        var e :| In(Run(before).rows, e, a);
      }
    }
  }

  // ----- Convergence -----

  /** All of `members` are active in `cluster` as a rebuild leaves them. */
  ghost predicate Gathered(rows: Rows, members: set<string>, cluster: nat) {
    forall m | m in members :: (cluster, m) in rows && rows[(cluster, m)] == Membership(MEMBERSHIP_THRESHOLD, None)
  }

  lemma GatheredIsOnlyCluster(t: Tables, address: string, cluster: nat)
    requires OneActive(t.rows) && Gathered(t.rows, StarMembers(t.edges, address), cluster)
    ensures ActiveClustersOf(t.rows, StarMembers(t.edges, address)) == {cluster}
  {
    hide StarMembers;
    var members := StarMembers(t.edges, address);
    HubIsMember(t.edges, address);
    assert In(t.rows, cluster, address);
    TouchedIsExisting(t.rows, members, cluster);
    forall c | c in ActiveClustersOf(t.rows, members)
      ensures c == cluster
    {
      TouchedIsExisting(t.rows, members, c);
      var m :| m in members && In(t.rows, c, m);
      assert In(t.rows, cluster, m);
    }
  }

  lemma HubIsMember(edges: Edges, address: string)
    ensures address in StarMembers(edges, address)
  {
  }

  /** A rebuild changes nothing exactly when the star is already gathered in one cluster, or there is no star. */
  lemma RebuildIsNoOp(t: Tables, address: string, now: int)
    requires IdsIssued(t) && OneActive(t.rows)
    ensures Rebuilt(t, address, now) == t <==>
            StrongEdges(t.edges, address) == {} || exists c :: Gathered(t.rows, StarMembers(t.edges, address), c)
  {
    hide StarMembers, ActiveClustersOf, ActiveMembersOf, IdsIssued;
    if StrongEdges(t.edges, address) != {} {
      var members := StarMembers(t.edges, address);
      if c :| Gathered(t.rows, members, c) {
        GatheredIsOnlyCluster(t, address, c);
        NothingSuperseded(t.rows, members, c, now);
        assert CanonicalCluster(t, members) == c && {c} - {c} == {};
      }
      RebuildGathers(t, address, now);
    }
  }

  lemma NothingSuperseded(rows: Rows, members: set<string>, cluster: nat, now: int)
    requires Gathered(rows, members, cluster)
    ensures Fold(rows, {}, members + ActiveMembersOf(rows, {}), cluster, now) == rows
  {
    assert members + ActiveMembersOf(rows, {}) == members;
  }

  /** A rebuild gathers its star. */
  lemma RebuildGathers(t: Tables, address: string, now: int)
    requires StrongEdges(t.edges, address) != {}
    ensures var members := StarMembers(t.edges, address);
            Gathered(Rebuilt(t, address, now).rows, members, CanonicalCluster(t, members))
  {
    hide StarMembers, ActiveClustersOf, ActiveMembersOf;
  }

  /** Rebuilding a wallet again changes nothing. */
  lemma RebuildingTwiceIsOnce(t: Tables, address: string, now: int, later: int)
    requires IdsIssued(t) && OneActive(t.rows)
    ensures Rebuilt(Rebuilt(t, address, now), address, later) == Rebuilt(t, address, now)
  {
    hide StarMembers, CanonicalCluster, Fold, IdsIssued, OneActive;
    if StrongEdges(t.edges, address) != {} {
      RebuildMerges(t, address, now);
      RebuildGathers(t, address, now);
      RebuildIsNoOp(Rebuilt(t, address, now), address, later);
    }
  }

  /** A rebuild writes every row it touches with the threshold as its confidence. */
  ghost predicate AtThreshold(rows: Rows) {
    forall key | key in rows && rows[key].revokedAt.None? :: rows[key].confidence == MEMBERSHIP_THRESHOLD
  }

  lemma {:induction false} RunAtThreshold(steps: seq<Step>)
    ensures AtThreshold(Run(steps).rows)
  {
    hide StarMembers, ActiveClustersOf, ActiveMembersOf, CanonicalCluster;
    if steps != [] {
      RunAtThreshold(steps[..|steps| - 1]);
    }
  }

  /**
    * Rebuilds converge: once every strong edge has had an endpoint rebuilt after it was stored, in whatever
    * order, no rebuild of any wallet changes anything until a new edge arrives.
    */
  lemma RebuildsConverge(steps: seq<Step>, address: string, now: int)
    requires forall k | k in Run(steps).edges && Run(steps).edges[k] >= MEMBERSHIP_THRESHOLD ::
               exists i :: RebuiltAfter(steps, k, i)
    ensures Rebuilt(Run(steps), address, now) == Run(steps)
  {
    hide Run, Joined, IdsIssued, OneActive;
    var t := Run(steps);
    var members := StarMembers(t.edges, address);
    RunKeepsInv(steps);
    RunAtThreshold(steps);
    if StrongEdges(t.edges, address) != {} {
      StarIsActive(steps, address);
      ClustersAreComponents(steps, address, address);
      var c :| In(t.rows, c, address);
      forall m | m in members
        ensures In(t.rows, c, m)
      {
        StarSharesCluster(steps, address, m);
        var d :| In(t.rows, d, address) && In(t.rows, d, m);
        OnlyOneActive(t.rows, address, c, d);
      }
      assert Gathered(t.rows, members, c);
    }
    RebuildIsNoOp(t, address, now);
  }

  lemma OnlyOneActive(rows: Rows, a: string, c: nat, d: nat)
    requires OneActive(rows) && In(rows, c, a) && In(rows, d, a)
    ensures c == d
  {
  }

  lemma StarIsActive(steps: seq<Step>, address: string)
    requires StrongEdges(Run(steps).edges, address) != {}
    ensures forall m | m in StarMembers(Run(steps).edges, address) :: m in Nodes(StrongLinks(Run(steps).edges))
  {
    var edges := Run(steps).edges;
    forall k | k in StrongEdges(edges, address)
      ensures k.fromAddress in Nodes(StrongLinks(edges)) && k.toAddress in Nodes(StrongLinks(edges))
    {
      assert (k.fromAddress, k.toAddress) in StrongLinks(edges);
    }
    var k :| k in StrongEdges(edges, address);
  }

  lemma StarSharesCluster(steps: seq<Step>, address: string, m: string)
    requires forall k | k in Run(steps).edges && Run(steps).edges[k] >= MEMBERSHIP_THRESHOLD ::
               exists i :: RebuiltAfter(steps, k, i)
    requires StrongEdges(Run(steps).edges, address) != {} && m in StarMembers(Run(steps).edges, address)
    ensures SameCluster(Run(steps).rows, address, m)
  {
    hide Run, Joined;
    var edges := Run(steps).edges;
    StarIsActive(steps, address);
    HubIsMember(edges, address);
    forall l | l in StarLinks(edges, address)
      ensures l in StrongLinks(edges)
    {
    }
    MemberReachesHub(edges, StrongLinks(edges), address, m);
    ConnectedSymmetric(StrongLinks(edges), m, address);
    ClustersAreComponents(steps, address, m);
  }

  /** An edge reaches the threshold exactly when funding is backed by these independent kinds. */
  lemma PromotionNeedsThreeKinds(c: EdgeComponents)
    ensures Confidence(c) >= MEMBERSHIP_THRESHOLD <==>
            && c.funding
            && if c.tokenAccountCreation
               then c.repeatedFunding || c.closeTimeSameToken || c.tradeStyleMatch
               else c.repeatedFunding && c.closeTimeSameToken && c.tradeStyleMatch
  {
  }

  // ----- Accumulation -----

  /** Step `i` stores a new row of the pair; a step whose key exists stores nothing. */
  predicate StoresRow(steps: seq<Step>, i: nat, a: string, b: string) {
    && i < |steps| && steps[i].StoreEdge?
    && steps[i].key.fromAddress == a && steps[i].key.toAddress == b
    && steps[i].key !in Run(steps[..i]).edges
  }

  lemma StoresEarlier(steps: seq<Step>, i: nat, a: string, b: string)
    requires steps != [] && StoresRow(steps[..|steps| - 1], i, a, b)
    ensures StoresRow(steps, i, a, b)
  {
    assert steps[..|steps| - 1][..i] == steps[..i];
  }

  /** Every row was stored by some step, with the score of that step's kinds alone. */
  lemma {:induction false} RowIsFromStep(steps: seq<Step>, k: EdgeKey) returns (i: nat)
    requires k in Run(steps).edges
    ensures StoresRow(steps, i, k.fromAddress, k.toAddress) && Run(steps).edges[k] == Confidence(steps[i].components)
  {
    var before := steps[..|steps| - 1];
    if k in Run(before).edges {
      i := RowIsFromStep(before, k);
      StoresEarlier(steps, i, k.fromAddress, k.toAddress);
    } else {
      i := |steps| - 1;
    }
  }

  /** Two wallets are linked exactly when some single row of the pair reaches the threshold by itself. */
  lemma LinkNeedsOneRow(steps: seq<Step>, a: string, b: string)
    ensures (a, b) in StrongLinks(Run(steps).edges) <==>
            exists i: nat :: StoresRow(steps, i, a, b) && Confidence(steps[i].components) >= MEMBERSHIP_THRESHOLD
  {
    var edges := Run(steps).edges;
    if (a, b) in StrongLinks(edges) {
      var k :| k in edges && edges[k] >= MEMBERSHIP_THRESHOLD && (a, b) == (k.fromAddress, k.toAddress);
      var i := RowIsFromStep(steps, k);
    }
    if i: nat :| StoresRow(steps, i, a, b) && Confidence(steps[i].components) >= MEMBERSHIP_THRESHOLD {
      var k := steps[i].key;
      assert steps[..i + 1][..i] == steps[..i];
      EdgesOnlyGrow(steps, i + 1, k);
      assert edges[k] >= MEMBERSHIP_THRESHOLD;
    }
  }

  /** A pair none of whose rows reaches the threshold alone is never joined, however many rows it has. */
  lemma WeakRowsNeverJoin(steps: seq<Step>, a: string, b: string)
    requires forall i: nat :: StoresRow(steps, i, a, b) ==> Confidence(steps[i].components) < MEMBERSHIP_THRESHOLD
    ensures (a, b) !in Joined(steps)
  {
    LinkNeedsOneRow(steps, a, b);
    JoinedWithinStrong(steps);
  }

  function Either(c: EdgeComponents, d: EdgeComponents): EdgeComponents {
    EdgeComponents(c.funding || d.funding, c.tokenAccountCreation || d.tokenAccountCreation,
                   c.repeatedFunding || d.repeatedFunding, c.closeTimeSameToken || d.closeTimeSameToken,
                   c.tradeStyleMatch || d.tradeStyleMatch)
  }

  const NO_EVIDENCE := EdgeComponents(false, false, false, false, false)

  /** All kinds of evidence stored about the pair. */
  function Accumulated(steps: seq<Step>, a: string, b: string): EdgeComponents {
    if steps == [] then NO_EVIDENCE
    else
      var before := Accumulated(steps[..|steps| - 1], a, b);
      if StoresRow(steps, |steps| - 1, a, b) then Either(before, steps[|steps| - 1].components) else before
  }

  lemma {:induction false} RowIsAccumulated(steps: seq<Step>, i: nat, a: string, b: string)
    requires StoresRow(steps, i, a, b)
    ensures Confidence(Accumulated(steps, a, b)) >= Confidence(steps[i].components)
    decreases |steps|
  {
    if i < |steps| - 1 {
      assert steps[..|steps| - 1][..i] == steps[..i];
      RowIsAccumulated(steps[..|steps| - 1], i, a, b);
    }
  }

  /** Accumulated confidence is necessary for a link. */
  lemma LinkNeedsAccumulation(steps: seq<Step>, a: string, b: string)
    requires (a, b) in StrongLinks(Run(steps).edges)
    ensures Confidence(Accumulated(steps, a, b)) >= MEMBERSHIP_THRESHOLD
  {
    LinkNeedsOneRow(steps, a, b);
    var i: nat :| StoresRow(steps, i, a, b) && Confidence(steps[i].components) >= MEMBERSHIP_THRESHOLD;
    RowIsAccumulated(steps, i, a, b);
  }

  /** Evidence that never reaches the threshold in one row clusters nobody, whatever it adds up to. */
  lemma {:induction false} WeakEvidenceNeverMerges(steps: seq<Step>)
    requires forall i | 0 <= i < |steps| && steps[i].StoreEdge? :: Confidence(steps[i].components) < MEMBERSHIP_THRESHOLD
    ensures Run(steps).rows == map[]
    ensures forall k | k in Run(steps).edges :: Run(steps).edges[k] < MEMBERSHIP_THRESHOLD
  {
    hide Confidence;
    if steps != [] {
      WeakEvidenceNeverMerges(steps[..|steps| - 1]);
    }
  }

  const OTHER_KINDS := EdgeComponents(false, true, true, true, true)

  /** Accumulated confidence is not enough: all five kinds in two rows of a pair leave both wallets unclustered. */
  lemma AccumulationIsNotEnough(a: string, b: string, now: int)
    ensures var steps := [StoreEdge(EdgeKey(a, b, "1", "funding"), TRANSFER), StoreEdge(EdgeKey(a, b, "2", "evidence"), OTHER_KINDS),
                          Rebuild(a, now), Rebuild(b, now)];
            Confidence(Accumulated(steps, a, b)) == 100 && Run(steps).rows == map[]
  {
    var first, second := StoreEdge(EdgeKey(a, b, "1", "funding"), TRANSFER), StoreEdge(EdgeKey(a, b, "2", "evidence"), OTHER_KINDS);
    var steps := [first, second, Rebuild(a, now), Rebuild(b, now)];
    WeakEvidenceNeverMerges(steps);
    assert steps[..3] == [first, second, Rebuild(a, now)] && steps[..3][..2] == [first, second];
    assert [first, second][..1] == [first] && [first][..0] == [];
    assert Run([]) == EMPTY && Run([first]).edges.Keys == {first.key};
    assert Accumulated([first], a, b) == TRANSFER;
    assert Accumulated([first, second], a, b) == Either(TRANSFER, OTHER_KINDS);
    assert Accumulated(steps[..3], a, b) == Accumulated([first, second], a, b);
  }

  predicate NoKindShared(c: EdgeComponents, d: EdgeComponents) {
    && !(c.funding && d.funding) && !(c.tokenAccountCreation && d.tokenAccountCreation)
    && !(c.repeatedFunding && d.repeatedFunding) && !(c.closeTimeSameToken && d.closeTimeSameToken)
    && !(c.tradeStyleMatch && d.tradeStyleMatch)
  }

  /** What every single kind is worth, in hundredths, and that kinds add up; all five make exactly a hundred. */
  lemma KindsAddUp(c: EdgeComponents, d: EdgeComponents)
    ensures NoKindShared(c, d) ==> Confidence(Either(c, d)) == Confidence(c) + Confidence(d)
    ensures Confidence(NO_EVIDENCE) == 0
    ensures Confidence(NO_EVIDENCE.(funding := true)) == 35 && Confidence(NO_EVIDENCE.(tokenAccountCreation := true)) == 25
    ensures Confidence(NO_EVIDENCE.(repeatedFunding := true)) == Confidence(NO_EVIDENCE.(closeTimeSameToken := true)) == 15
    ensures Confidence(NO_EVIDENCE.(tradeStyleMatch := true)) == 10
    ensures MEMBERSHIP_THRESHOLD == 70
  {
  }

  const TRANSFER := EdgeComponents(true, false, false, false, false)

  /** Transfers alone, however many and however often rebuilt, never put a wallet in a cluster. */
  lemma {:induction false} TransfersNeverMerge(steps: seq<Step>)
    requires forall i | 0 <= i < |steps| && steps[i].StoreEdge? :: steps[i].components == TRANSFER
    ensures Run(steps).rows == map[]
    ensures forall k | k in Run(steps).edges :: Run(steps).edges[k] == WEIGHT_FUNDING
  {
    if steps != [] {
      TransfersNeverMerge(steps[..|steps| - 1]);
    }
  }
}
