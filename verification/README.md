# Wallet-intelligence service: verified models of its state machines

The service ingests on-chain transfers, clusters wallets, watches freshly funded ones and raises
alerts. Most of it is SQL and HTTP; what is verified here are the algorithms and protocols in
between. A table is a finite map or a sequence of rows, a transaction is one step that commits or
leaves everything as it was, and `now()` is a parameter. Every object the Rust code updates in place
is a class whose methods are proved equal to a function of the old state; the theorems are about
those functions and about runs of them.

| files | component |
|---|---|
| `WalletClusters.dfy`, `ClusterRuns.dfy` | soft wallet clusters: one rebuild write by write, then every run |
| `Text.dfy`, `Manifest.dfy`, `MigrationBundle.dfy` | the strict manifest parser, bundle validation, reduced bundles |
| `MigrationLedger.dfy`, `LedgerAgreement.dfy`, `LedgerHistories.dfy` | migrator and verifier, their agreement, and concurrent, interrupted histories |
| `FundingCaseMerge.dfy`, `AlertRekey.dfy`, `FundingRepair.dfy` | the multi-table repair of duplicate funding cases |
| `TokenAccount.dfy`, `WeightedBucket.dfy`, `ProviderKeys.dfy` | the two kinds of rate limiter |
| `HeliusPool.dfy`, `FairPicking.dfy`, `ProviderRequests.dfy` | the provider pool, its selection and the retry loop |
| `FundingRadar.dfy` | the life of a funding radar case |
| `LoginLimiter.dfy`, `EvaluationLease.dfy`, `LabelAuthority.dfy`, `QueuePausing.dfy` | smaller protocol cores |
| `Util.dfy` | options, results, least elements, remainders |

`dafny verify dfyconfig.toml` checks everything.

## What the proofs found

These are results about the code as it is; each is a lemma below.

- A rebuild reads only the star of one wallet, although its comment speaks of a connected component
  (src/graph.rs:202). Components appear because overlapping clusters are folded together; they are
  exact once every strong edge has had an endpoint rebuilt after it was stored.
- The comments promise that memberships are revoked when confidence falls (src/graph.rs:151-153) and
  speak of accumulated confidence (src/graph.rs:3-5). A wallet once active stays active, and
  accumulation is necessary but not enough: two wallets are linked exactly when a single row of the
  pair reaches the threshold. All five kinds spread over two rows cluster nobody.
- A successful run of the migrator with `accept_legacy_baseline` can leave a ledger the verifier
  rejects: re-declaration (src/db.rs:1445-1470) never compares the digest with the file. Verification
  fails exactly when such a row existed, and the next run reports it.
- After a pause `WeightedBucket` credits the paused time as well, so the textbook bound of one bucket
  plus the refill of the interval fails for every bucket that holds and refills anything. It is
  exceeded by at most what was granted under a pause before the first refill of the interval, so by
  one bucket however many pauses are lifted, and not at all when nothing was.
- The login limiter counts stored failures, and the password is checked before the failure is stored
  (src/admin.rs:205-214). At most MAX_FAILURES passwords are checked and found wrong in a window,
  plus those whose record the store refused, and that many can be: a single refused record already
  breaks the limit, and with a store that refuses writes any number of passwords are checked.
- `pick_provider` looks at every key unless its 64-bit cursor wraps inside the scan with a number of
  keys that does not divide 2^64. Then some key is missed and the call can report that none is free.
- A second delivery of one funding event is documented as independent evidence
  (src/funding_radar.rs:135) and counts as such, so a redelivery alone promotes a case when two kinds
  are required.
- Deployment evidence arriving after the window of a case that is still only funded does not deploy
  it: expiry is tested first. A dismissed case refuses every later qualifying event.
- The case repair aborts as a whole exactly when two dead cases have alerts that re-key to one key no
  row holds yet.
- Without a manual label and without an auto-skip, `apply_automatic_disposition` answers `score`
  whatever the automatic labels say; that is the effective disposition only if some label is live and
  all live ones say `score`. With a manual label it answers even beside an automatic label of unknown
  disposition, on which every other reader fails.

## Model

| member | source | states |
|---|---|---|
| `ClusterRuns.ClustersAreStarComponents` | src/graph.rs:183-270 | After any run of edge insertions, rebuilds and aborted rebuilds, two wallets share an active cluster iff the stars rebuilt so far connect them |
| `ClusterRuns.ClustersAreComponents` | src/graph.rs:183-270 | Once every strong edge was stored before a rebuild of one of its endpoints, in any order, active clusters are exactly the connected components of the strong edges, and wallets without one are in none |
| `ClusterRuns.RunKeepsInv` | src/graph.rs:211-270 | Every run keeps issued ids, one active membership per wallet, and the active clusters as the components of the rebuilt stars |
| `ClusterRuns.RebuildKeepsInv` | src/graph.rs:202-270 | One rebuild turns the components of the stars so far into the components with one more star |
| `ClusterRuns.RebuildMerges` | src/graph.rs:215-268 | Star members and everyone in a cluster they touch end in the canonical cluster, and nobody else moves |
| `ClusterRuns.RebuildHistory` | src/graph.rs:228-268 | One rebuild drops no row, revives no retired cluster, deactivates no wallet and never raises a wallet's cluster id |
| `ClusterRuns.RebuildRewritesRows` | src/graph.rs:243-301 | A rebuild leaves each row as it was, or revokes an active row of a superseded cluster with its confidence kept, or activates it in the canonical cluster |
| `ClusterRuns.RunHistory` | src/graph.rs:228-270 | The same between any two moments of any run |
| `ClusterRuns.RebuildIsNoOp` | src/graph.rs:226-268 | A rebuild changes nothing iff there is no strong edge or the whole star is already gathered in one cluster |
| `ClusterRuns.RebuildingTwiceIsOnce` | src/graph.rs:226-228 | Rebuilding a wallet again changes nothing |
| `ClusterRuns.RebuildsConverge` | src/graph.rs:226-228 | Once every strong edge has had an endpoint rebuilt after it was stored, no rebuild of any wallet changes anything |
| `ClusterRuns.JoinedWithinStrong` | src/graph.rs:183-199 | Only edges at or above the threshold ever connect wallets |
| `ClusterRuns.PromotionNeedsThreeKinds` | src/graph.rs:21-61 | Which kinds of evidence together reach 70 hundredths: funding always, with token account creation and one more kind or with all three others |
| `ClusterRuns.KindsAddUp` | src/graph.rs:21-61 | What each kind is worth alone, 35, 25, 15, 15 and 10 hundredths, and that kinds add up |
| `ClusterRuns.TransfersNeverMerge` | src/graph.rs:70-115 | Transfers alone, however many and however often rebuilt, put no wallet in any cluster |
| `ClusterRuns.LinkNeedsOneRow` | src/graph.rs:183-199 | After any run two wallets are linked iff some single stored row of the pair reaches the threshold alone |
| `ClusterRuns.LinkNeedsAccumulation` | src/graph.rs:3-5 | A link implies that all kinds stored about the pair together reach the threshold |
| `ClusterRuns.WeakRowsNeverJoin` | src/graph.rs:183-209 | A pair none of whose rows reaches it alone is never joined, however many rows it has |
| `ClusterRuns.WeakEvidenceNeverMerges` | src/graph.rs:119-148 | Rows that stay below the threshold one by one cluster nobody in any run |
| `ClusterRuns.AccumulationIsNotEnough` | src/graph.rs:117-148 | The failing input: all five kinds in two rows of a pair, full accumulated confidence and no membership |
| `WalletClusters.ScoreEdgeConfidence` | src/graph.rs:41-67 | The step-by-step score is the capped weighted sum the other results use |
| `WalletClusters.ClusterStore.StoreEdge` | src/graph.rs:70-115 | Inserts an edge with its score, or changes nothing when its key exists |
| `WalletClusters.ChronicleGrows` | src/graph.rs:166-175 | A write that respects the chronicle extends it: in all versions of the table, inside transactions too, one active row per wallet, no row dropped, a wallet's cluster id never rises, and a cluster that stopped being active never is again |
| `WalletClusters.ClusterStore.UpsertMembership` | src/graph.rs:279-301 | Activates one row in a cluster not above the wallet's last one, as the next version of the chronicle |
| `WalletClusters.ClusterStore.RevokeCluster` | src/graph.rs:252-259 | Revokes exactly the active rows of one cluster and retires it, as the next version of the chronicle |
| `WalletClusters.ClusterStore.CollectStar` | src/graph.rs:202-209 | The loop collects the wallet and every endpoint of its strong edges |
| `WalletClusters.ClusterStore.PickCanonical` | src/graph.rs:227-236 | The smallest existing id, or an id never used before |
| `WalletClusters.ClusterStore.Supersede` | src/graph.rs:243-263 | Revoking first and joining after moves exactly the active members of one superseded cluster, keeping the chronicle at every write |
| `WalletClusters.ClusterStore.SupersedeAll` | src/graph.rs:238-263 | All superseded clusters folded, in any order, give one and the same table |
| `WalletClusters.ClusterStore.RebuildClusterFor` | src/graph.rs:176-270 | The whole transaction write by write has the committed effect of the rebuild function, keeps the chronicle, leaves every wallet that was ever active active, and returns a cluster iff the wallet has a strong edge |
| `WalletClusters.FoldKeepsOneActive` | src/graph.rs:273-278 | Folding keeps at most one active membership per wallet |
| `Manifest.ParseMigrationManifest` | src/db.rs:1886-1923 | The loop returns the map of the first error-free parse, or the first error with its line number |
| `Manifest.ParserIsStrict` | src/db.rs:1891-1922 | A text parses iff no line is malformed and no name is listed twice, and the result is exactly what its lines list |
| `Manifest.LineIsRead` | src/db.rs:1893-1914 | What a line is from its words alone: ignored when empty or starting with a hash sign, an entry when it is a 64-digit hexadecimal digest and a name ending in .sql, recorded in lower case, malformed otherwise |
| `Manifest.ErrorIsFirstFault` | src/db.rs:1893-1921 | A refused text is refused at its first faulty line, numbered from one, with the fault it has |
| `Text.LineEndings` | src/db.rs:1891 | Both line endings end a line and are no part of it, and an unterminated rest is a line |
| `Manifest.RoundTrip` | src/db.rs:1886-1923 | Rendering any valid map in any order and parsing the text returns the map |
| `Manifest.EntryDigest` | src/db.rs:1906-1914 | A recorded digest is 64 hexadecimal digits whatever case it was written in |
| `Manifest.WriteReducedManifest` | src/pg_test_support.rs:76-83 | The filtered lines, each ended, in their order |
| `Manifest.ReducedManifestParses` | src/pg_test_support.rs:76-83 | The filtered manifest of a text that parses is parsed to the kept part of the map |
| `MigrationBundle.Build` | src/db.rs:268-304 | The imperative validation answers as the validation function does, with the same error in the same order |
| `MigrationBundle.SortIsSorted` | src/db.rs:269 | The entries end in filename order and are the same entries |
| `MigrationBundle.BeforeIsLexicographic` | src/db.rs:269 | The order is a proper prefix first, else by the first character that differs |
| `MigrationBundle.RefusalIsExplained` | src/db.rs:268-303 | Why a candidate is refused: parse error, else all unlisted files, else all absent ones, else the first file in order with other bytes |
| `MigrationBundle.BuildAcceptsReviewed` | src/db.rs:268-304 | Accepted iff the manifest parses, names exactly the files present and has the digest of each; the bundle is then those files in order |
| `MigrationBundle.AcceptedIsBijection` | src/db.rs:187-232 | With no file read twice, entries and manifest correspond one to one |
| `MigrationBundle.ReduceBundle` | src/pg_test_support.rs:62-86 | Copies the files before the cutoff and writes the manifest filtered to them |
| `MigrationBundle.ReducedBundleIsAccepted` | src/pg_test_support.rs:55-86 | Reducing an accepted bundle gives an accepted one: a prefix in filename order, with the manifest restricted to it |
| `MigrationLedger.Database.Reconcile` | src/db.rs:1440-1566 | The branches for a file that has a row, as the decision function that LedgerAgreement.RunInFull characterises row by row |
| `MigrationLedger.Database.MigrateBundleWith` | src/db.rs:1429-1584 | One uninterrupted run equals the recursive migrator, database and error, characterised by LedgerAgreement.RunInFull |
| `MigrationLedger.CompareRows` | src/db.rs:1724-1762 | The four lists hold exactly the files with each finding, in bundle order |
| `MigrationLedger.EnsureSchemaCurrent` | src/db.rs:1598-1841 | Accepts iff the ledger names exactly the bundle and every row vouches for its file; otherwise names the first fault there is, read off the rows: no row, other digest, no file, no digest, no origin, with exactly the files that have it; when it accepts, reports exactly the baseline rows |
| `MigrationLedger.VerdictIsExplained` | src/db.rs:1690-1840 | The same as a lemma on any ledger, each fault stated on the rows alone |
| `MigrationLedger.CurrentMeansAccepted` | src/db.rs:1770-1840 | The five lists are all empty iff the ledger vouches for the bundle |
| `LedgerAgreement.MigrateThenVerify` | src/db.rs:1440-1566 | A successful run over no foreign names is accepted by the verifier iff no row was re-declared with another digest; always without the legacy flag |
| `LedgerAgreement.VerifierAgreesWithMigrator` | src/db.rs:1690-1827 | The verifier accepts iff no name is foreign and a strict run succeeds without doing anything |
| `LedgerAgreement.RerunIsNoOp` | src/db.rs:1543-1566 | After a strict success any further run executes and changes nothing |
| `LedgerAgreement.LegacySuccessCanBeRejected` | src/db.rs:1445-1470 | A ledger on which the legacy flag succeeds and the verifier then refuses |
| `LedgerAgreement.NextRunExposesRedeclaration` | src/db.rs:1543-1564 | The run after a success changes nothing and fails, with a changed-file error, iff the verifier rejects |
| `LedgerAgreement.CompleteRowsAreOnlyCompared` | src/db.rs:1543-1566 | Over complete rows a run never writes and succeeds iff all match |
| `LedgerAgreement.MigrateCompletes` | src/db.rs:1429-1583 | A run that reaches the end leaves every row complete, matching iff it was not re-declared wrongly |
| `LedgerAgreement.RunInFull` | src/db.rs:1429-1583 | A run stops at the first file the database it started from makes it stop at, with that file's own error; every file before has its row, a baseline marked as one, exactly the missing files were executed, in order, and nothing else changed |
| `LedgerAgreement.CurrentListsBaselines` | src/db.rs:1508-1522 | After an accepted run the verifier reports as baselines exactly the files whose row was incomplete before or was a baseline already |
| `LedgerAgreement.MigrateExtends` | src/db.rs:1429-1583 | Successful or not, a run drops no row, changes no complete row, forgets no execution and adds only names of the bundle |
| `LedgerAgreement.ManifestArmsUnreachable` | src/db.rs:1523-1541 | On a built bundle the mismatch and missing-entry arms are never reached |
| `LedgerAgreement.RecordedForms` | src/db.rs:350-360 | A digest is never read as a baseline, and a stored baseline gives its digest back |
| `LedgerHistories.EveryWriteIsATurn` | src/db.rs:1245-1261 | With any number of migrators, every write is the atomic turn of one file by the lock holder on the current row |
| `LedgerHistories.HistoryIsSound` | src/db.rs:1245-1261 | Over every history only the lock holder is past the lock, the row it decides on is current, and every row's origin is accounted for |
| `LedgerHistories.ExecutedOnceWithItsRow` | src/db.rs:1567-1580 | Each body runs at most once, never for a name already recorded, and only together with its row, which stays |
| `LedgerHistories.CompleteRowsAreFrozen` | src/db.rs:1440-1579 | Between any two moments rows stay and a row with digest and provenance never changes, so no baseline row becomes applied |
| `LedgerHistories.RedeclaredRowsAreMarked` | src/db.rs:1445-1516 | Over every history a row of the start that changed is marked as a baseline in value and origin and keeps the digest it had |
| `LedgerHistories.AloneIsMigrate` | src/db.rs:1429-1583 | A process left alone does exactly what the uninterrupted run does and ends well iff that does |
| `LedgerHistories.LockIsHandedOn` | src/db.rs:1245-1261 | A waiting process gets the lock iff nobody holds it, and a process that dies gives it back and changes nothing |
| `LedgerHistories.AppliedMeansExecuted` | src/db.rs:1571-1580 | An applied row was there unchanged from the start or names bytes executed in this history |
| `LedgerHistories.ExecutedIsPrefix` | src/db.rs:1428-1583 | From an empty ledger with one bundle, interrupted or contended runs have always executed a prefix of filename order |
| `LedgerHistories.VerifierAcceptsAfterSuccess` | src/db.rs:1690-1827 | Once any strict migrator has succeeded, every later ledger without foreign names is accepted, whatever other processes did |
| `LedgerHistories.StrictSuccessIsForever` | src/db.rs:1429-1583 | The files a strict process has passed match, and keep matching |
| `FundingCaseMerge.SurvivorsAreAlive` | src/db.rs:720-735 | Survivors are never merged away, and nothing is merged iff no identity repeats |
| `FundingCaseMerge.OneCasePerIdentity` | src/db.rs:720-735 | Exactly the lowest id of each workspace, chain and recipient remains |
| `FundingCaseMerge.OneCasePerRecipient` | src/db.rs:685-735 | No two cases left share workspace, chain and recipient, and each old case's survivor has its own three |
| `FundingCaseMerge.MergeLosesNothing` | src/db.rs:748-820 | No merged column falls behind any absorbed row, every value is some row's own, the stage is the most advanced with dismissal above all, and the first-funding facts are those of the row funded first |
| `FundingCaseMerge.MergedReasonFits` | src/db.rs:788-792 | A reason survives only on a dismissed result: the one of the dismissal updated last |
| `FundingCaseMerge.MergedEvidenceIsUnion` | src/db.rs:793-800 | Evidence keys are the union over the group; per key the highest id holding it wins |
| `AlertRekey.OnlySubjectChanges` | src/db.rs:854-878 | Re-keying a canonical key changes its subject segment only, also when the destination contains colons |
| `AlertRekey.OnlyMergedFundingKeys` | src/db.rs:868-878 | Exactly keys whose first segment is funding and whose third reads as a merged-away id are re-keyed |
| `AlertRekey.DecimalReadsBack` | src/db.rs:863-865 | The id written into a key denotes it, without leading zeros |
| `AlertRekey.NewKeyIsFinal` | src/db.rs:860-880 | A new key names a survivor and is never re-keyed itself |
| `AlertRekey.AbortsOnSharedAbsentTarget` | src/db.rs:911-928 | The primary key refuses iff two old keys re-key to one key no row holds |
| `AlertRekey.KeysAfter` | src/db.rs:879-928 | On commit the keys are the untouched ones and the new ones, and none names a merged-away case |
| `AlertRekey.RowAfter` | src/db.rs:882-928 | The row that held a key wins, folded if an absorbed row had been sent; otherwise the one row that moved is there unchanged |
| `AlertRekey.SentStaysSent` | src/db.rs:882-918 | A committed alert is sent iff it was, or some row re-keyed to it was |
| `AlertRekey.FoldedIsDelivered` | src/db.rs:894-907 | A row made sent by folding keeps its payload and any delivery time of its own, else takes a sent row's, and is neither due nor claimed; every other kept row is only repointed |
| `FundingRepair.RepairStore.ChooseSources` | src/db.rs:894-907 | Picks, for every target to fold, some sent row that re-keys to it |
| `FundingRepair.RepairStore.ReconcileAlerts` | src/db.rs:833-928 | Repointing, folding, dropping collisions and rewriting keys in sequence equal the alert function, or report the refusal |
| `FundingRepair.RepairStore.Repair` | src/db.rs:654-948 | The whole transaction equals the repair function: untouched, committed, or rolled back |
| `FundingRepair.AbortIsClean` | src/db.rs:707-937 | An abort leaves everything unchanged, and happens iff two dead keys share an absent target |
| `FundingRepair.CommittedCases` | src/db.rs:707-937 | A commit leaves per identity the lowest id with its normalised group merged, and no scalar evidence |
| `FundingRepair.EvidenceIsKept` | src/db.rs:709-718 | Over the cases as they were, a case left holds under every key exactly the value of the newest case of its group that held one, scalars and arrays whole under legacy_evidence |
| `FundingRepair.ColumnsAreKept` | src/db.rs:748-820 | Over the cases as they were, a lone case keeps every other column and a merged one has what the policy per column says |
| `FundingRepair.UntouchedWhenHealthy` | src/db.rs:664-705 | The store is left alone iff the later index exists or all evidence is an object and no recipient repeats |
| `FundingRepair.RepairIsIdempotent` | src/db.rs:664-705 | Run again, the repair touches nothing |
| `FundingRepair.EventsFollowSurvivors` | src/db.rs:822-831 | Every event is kept and points at the survivor of its old case, otherwise untouched |
| `FundingRepair.AlertsFollowSurvivors` | src/db.rs:833-937 | No committed alert refers to a vanished case, by foreign key or by key |
| `FundingRepair.AlertLinksFollow` | src/db.rs:844-852 | The foreign key of each committed alert is that of its old row moved to the survivor of its case |
| `WeightedBucket.BucketCell.TryAcquire` | src/gmgn.rs:73-107 | Refill, pause handling and the answered wait, step by step, equal the bucket functions |
| `WeightedBucket.BucketCell.PauseFor` | src/gmgn.rs:109-112 | Sets the pause and nothing else, so stored tokens stay spendable |
| `WeightedBucket.BucketCell.CurrentTokens` | src/gmgn.rs:114-117 | Refills and reads, as the peek operation of a run does |
| `WeightedBucket.PeekIsInvisible` | src/gmgn.rs:73-117 | Reading the token count changes no later refill |
| `WeightedBucket.GrantsBounded` | src/gmgn.rs:73-112 | In any interval the granted cost is at most what is granted before its first refill, plus a bucket, plus the refill of the interval; the first is at most the stored tokens, and zero or without a lifted pause the textbook bound holds; hence at most capacity times one more than the pauses lifted, plus the refill |
| `WeightedBucket.EarlyNeedsPause` | src/gmgn.rs:73-95 | Nothing is granted before the first refill of an interval except under a pause |
| `WeightedBucket.PauseBreaksTextbook` | src/gmgn.rs:73-97 | For every capacity, rate and early amount up to the capacity, a run over a pause grants both the early amount and the capacity and exceeds the textbook bound of its interval |
| `WeightedBucket.TextbookBoundIsExact` | src/gmgn.rs:73-112 | The textbook bound holds in every interval of every run iff the bucket holds nothing or never refills |
| `WeightedBucket.NextGrant` | src/gmgn.rs:73-107 | When a refused caller who is alone would next be served |
| `WeightedBucket.WaitSuffices` | src/gmgn.rs:89-107 | After the returned wait the acquire succeeds iff the cost fits the bucket and the rate is at least one, paused or not |
| `WeightedBucket.WaitIsMinimal` | src/gmgn.rs:89-107 | Outside a pause no shorter wait would do |
| `WeightedBucket.WaitIsExact` | src/gmgn.rs:94-106 | Paused or not, the returned wait is the least span that reaches past the pause and earns what is missing by itself |
| `WeightedBucket.BurstIsExact` | src/gmgn.rs:89-95 | A full bucket serves a burst of equal requests exactly as far as they fit |
| `WeightedBucket.RouteBursts` | src/gmgn.rs:28-50 | How many requests of each route a full bucket of the default capacity serves at one moment: 20, 10, 6 or 4 |
| `WeightedBucket.RoutesAreServed` | src/gmgn.rs:28-107 | With a capacity of the dearest route every route is served after its wait; with less that route never is |
| `ProviderKeys.TokenBucket.TryAcquire` | src/helius.rs:142-164 | Refill and consumption of one token equal the bucket functions |
| `ProviderKeys.ProviderKey.TryAcquire` | src/helius.rs:66-86 | Cooldown, breaker and bucket in this order; only the bucket of the class moves |
| `ProviderKeys.ProviderKey.RecordFailure` | src/helius.rs:94-101 | Counts, opens the breaker for 60 seconds at the threshold and restarts the count |
| `ProviderKeys.ClassesAreIndependent` | src/helius.rs:81-86 | An operation on one class leaves the buckets of the others as they were |
| `ProviderKeys.SuccessHeals` | src/helius.rs:88-92 | A success resets the failure count and closes the breaker, and ends no cooldown |
| `ProviderKeys.GrantsBounded` | src/helius.rs:66-164 | Tokens stay within the rate, and a class is granted at most its rate plus rate times length in any interval |
| `ProviderKeys.WaitSuffices` | src/helius.rs:144-155 | After the bucket's wait the next acquire succeeds iff the rate is at least one |
| `ProviderKeys.WaitIsExact` | src/helius.rs:144-155 | A lone refused caller is served from the end of the returned wait on and not before |
| `ProviderKeys.KeyWaitIsExact` | src/helius.rs:67-81 | A cooling key answers the end of its cooldown, else an open one the moment it is available, else the bucket's wait |
| `ProviderKeys.BreakerOpensAtMultiples` | src/helius.rs:94-101 | Failures in a row open the breaker at each multiple of the threshold, a threshold of zero acting as one, and the last opening is in force |
| `HeliusPool.HeliusPool.ScanKeys` | src/helius.rs:272-289 | The scan loop equals the scan function: granted key or best refusal, and the keys after it |
| `HeliusPool.HeliusPool.SweepKeys` | src/helius.rs:294-303 | The fallback loop equals the sweep function |
| `HeliusPool.HeliusPool.PickProvider` | src/helius.rs:265-308 | Outcome, keys and cursor after one call |
| `FairPicking.PickContract` | src/helius.rs:265-308 | Grants iff some available key has a token, then takes exactly that token of the first such key in cursor order; otherwise takes none and returns the first key with the least wait among available ones, or the least remaining time when none is available |
| `FairPicking.NoProvidersMeansEmpty` | src/helius.rs:266-268 | The pool says that it has no providers iff it has none |
| `FairPicking.EveryKeyServedOnce` | src/helius.rs:270-278 | As many calls as keys that all have a token serve each key once, in cursor order |
| `FairPicking.EveryKeyVisited` | src/helius.rs:270-273 | The scan looks at every key when the cursor is safe |
| `FairPicking.WrapMissesAKey` | src/helius.rs:270-273 | When it is not, some key is not looked at |
| `FairPicking.UnsafeCursorFails` | src/helius.rs:270-308 | A pool of any size in which a key with a token exists and the call reports no provider |
| `FairPicking.CursorSafetyIsExact` | src/helius.rs:265-308 | For every cursor and number of keys, a free key is always found iff the cursor is safe |
| `HeliusPool.HeliusPool.Settle` | src/helius.rs:369-424 | Does to the used key what the reply function says and nothing to any other; ProviderRequests.HealthFromReplies characterises it |
| `HeliusPool.HeliusPool.RequestJson` | src/helius.rs:346-428 | The retry loop over the pool equals the request function: keys used, end, and pool left behind |
| `ProviderRequests.SendsBounded` | src/helius.rs:352-427 | At most one send more than the retries, all but the last answered with something retried; exactly how a request ends |
| `ProviderRequests.BlockedKeyRests` | src/helius.rs:66-121 | A key cooling down or with an open breaker is not used by a request before that is over, whatever its other attempts do |
| `ProviderRequests.RateLimitedKeyRests` | src/helius.rs:385-394 | A key that answered with a rate limit is not used again by the same request within its cooldown |
| `ProviderRequests.HealthFromReplies` | src/helius.rs:374-424 | After any replies a key's count is its failures since the last success or opening, its breaker is open until a minute after the last opening unless a success followed, its cooldown is that of the last rate limit, and its buckets are untouched |
| `ProviderRequests.HealthOverRequests` | src/helius.rs:346-428 | The same over any requests one after the other, from exactly the replies the key got; a key that got none keeps its health |
| `ProviderRequests.ResultHeals` | src/helius.rs:374-385 | A request that ends with a result leaves its key without failures and its breaker closed |
| `ProviderRequests.PickUsesAvailable` | src/helius.rs:272-308 | Only available keys are picked, and picking touches no cooldown, count or breaker |
| `FundingRadar.RadarStore.IngestFundingEvent` | src/funding_radar.rs:105-204 | The branches of ingestion equal the ingestion function, observation always stored |
| `FundingRadar.RadarStore.EvaluateRadarCase` | src/funding_radar.rs:321-464 | The branches of evaluation equal the evaluation function: rows and decision |
| `FundingRadar.RadarStore.CollectKinds` | src/funding_radar.rs:376-400 | The loop finds exactly the evidence kinds observed by now, and whether one is not infrastructure |
| `FundingRadar.RadarStore.ScorePreparation` | src/funding_radar.rs:466-488 | The accumulated confidence is the capped sum |
| `FundingRadar.RadarStore.RecordCaseEvidence` | src/funding_radar.rs:537-547 | Appends one event for an existing case, refuses an unknown one |
| `FundingRadar.LifecycleHolds` | src/funding_radar.rs:133-464 | Over every run cases keep their origin, stages only move along funded, preparation, deployed or to dismissed from funded, and evidence only grows |
| `FundingRadar.StepKeeps` | src/funding_radar.rs:344-464 | One step moves a stage at most one arrow and keeps terminal confidence |
| `FundingRadar.StepKeepsSound` | src/funding_radar.rs:105-464 | Ids stay unique, events point at cases, promoted confidence lies in 55 to 95, only expiry dismisses |
| `FundingRadar.OriginsAreRecorded` | src/funding_radar.rs:154-200 | Over every run each case has its first_funding event on record, a window counted from it, and 40 or 55 by its source until promoted, 85 once deployed |
| `FundingRadar.OneAlertPerCase` | src/funding_radar.rs:418-444 | At most one preparation alert per workspace, chain and recipient in any run |
| `FundingRadar.AlertsExactly` | src/funding_radar.rs:418-444 | In any run a case is alerted once iff some step promotes it with a confidence at or above the alert threshold, and otherwise never |
| `FundingRadar.PromotionIsExact` | src/funding_radar.rs:419-423 | One evaluation promotes a funded case iff its window is open, no deployment was seen, enough kinds were, and some event seen was not from infrastructure |
| `FundingRadar.DecisionReportsCase` | src/funding_radar.rs:329-463 | A decision reports stage before and after and the confidence as stored, and no other case changes |
| `FundingRadar.FirstEarningEventOpens` | src/funding_radar.rs:112-200 | In any run a recipient has a case iff some confirmed, fresh and large event earned it one, with the facts of the first that did |
| `FundingRadar.IngestAnswers` | src/funding_radar.rs:104-204 | Ingestion answers with the case there is afterwards, fails iff an earning event meets a dismissed case, and otherwise adds one piece of evidence and the new fan-out |
| `FundingRadar.EveryDeliveryIsObserved` | src/funding_radar.rs:112-113 | Over any run the observations are exactly those of the delivered events |
| `FundingRadar.ObservationsAreTransfers` | src/funding_radar.rs:21-32 | Two events are one observation iff they agree in chain, signature, both addresses, asset kind and mint |
| `FundingRadar.SignalsAddUp` | src/funding_radar.rs:466-488 | What each signal adds to the confidence, 15, 10, 10, 5 and 5, and that signals add up to a cap of 40 |
| `FundingRadar.ConfidenceIsMonotone` | src/funding_radar.rs:466-488 | Confidence lies in 55 to 95 and never falls when kinds or fan-out grow |
| `FundingRadar.QualifyingIsMonotone` | src/funding_radar.rs:58-87 | More money, a higher price or lower bars never disqualify an event |
| `FundingRadar.UncountedEventsAreInvisible` | src/funding_radar.rs:115-124 | A run leaves the cases, evidence and ids of the same run without the events that are only processed, stale or small |
| `FundingRadar.DeploymentNeedsOpenWindow` | src/funding_radar.rs:359-417 | With deployment evidence one evaluation leaves a case deployed iff it was deployed or in preparation, or funded and still in its window; a funded case past it is dismissed |
| `FundingRadar.LateCaseNeverDeploys` | src/funding_radar.rs:359-417 | A case still funded and from then on evaluated only after its window is never deployed in any run, whatever evidence arrives, and is dismissed iff evaluated |
| `FundingRadar.DismissedForGood` | src/db.rs:650-652 | A case dismissed in any run refuses every later qualifying event |
| `FundingRadar.RedeliveryPromotes` | src/funding_radar.rs:112-153 | Delivering one event twice promotes iff the source is not infrastructure, the window is open and at most two kinds are required |
| `LoginLimiter.LoginStore.CountFailures` | src/auth.rs:277-287 | Counts the failures of the key younger than the window against the maximum |
| `LoginLimiter.LoginStore.EstablishSession` | src/auth.rs:148-160 | Records the success, clears the failures and opens one session together |
| `LoginLimiter.LoginStore.PruneAttempts` | src/auth.rs:344-349 | Deletes exactly the rows older than a day and keeps the others in order |
| `LoginLimiter.LoginStore.ClearAttempts` | src/auth.rs:332-341 | Deletes exactly the failures of the key and keeps the others in order |
| `LoginLimiter.LoginStore.LoginSubmit` | src/admin.rs:190-231 | Answer, stored attempts and sessions of one login, failing closed when the store does |
| `LoginLimiter.StoredFailuresBounded` | src/auth.rs:271-321 | In every serialised run, every window of 15 minutes holds at most MAX_FAILURES stored failures per key |
| `LoginLimiter.LimitedExactly` | src/auth.rs:275-287 | A client is turned away iff it was told wrong password at least five times in the last fifteen minutes since its last success, whatever was pruned |
| `LoginLimiter.LoginIsRecorded` | src/auth.rs:148-160 | A successful login leaves its own record, no failure of the key, and every other row in its order |
| `LoginLimiter.GuessesBounded` | src/auth.rs:271-321 | Between two successes at most MAX_FAILURES wrong-password answers fall in any window, whatever is pruned |
| `LoginLimiter.ChecksBounded` | src/admin.rs:190-215 | At most MAX_FAILURES passwords are checked and found wrong in any window beyond those whose record the store refused; at most MAX_FAILURES when it refuses none |
| `LoginLimiter.ChecksLimitIsExact` | src/admin.rs:190-215 | Over all runs with at most so many refused records in the window, a limit on the checks holds iff it allows MAX_FAILURES plus that many |
| `LoginLimiter.MaxFailuresNeedsEveryRecord` | src/admin.rs:205-213 | So MAX_FAILURES limits the checks iff no record is refused: a single refusal breaks it |
| `LoginLimiter.ChecksAreAnsweredOrRefused` | src/admin.rs:205-215 | Wrong-password checks are the wrong-password answers plus the refused records, in every run and window |
| `LoginLimiter.RefusedChecksUnbounded` | src/admin.rs:205-213 | With a store that refuses writes any number of checks fits one window and none is remembered |
| `LoginLimiter.WrongAnswersAreStored` | src/admin.rs:205-214 | Every wrong answer since the last success is stored until it outlives the retention |
| `LoginLimiter.PruningKeepsAnswers` | src/auth.rs:343-349 | Every login is answered as if nothing had ever been pruned |
| `LoginLimiter.PruningKeepsCount` | src/auth.rs:277-349 | The limiter's verdict at any later time is the same with and without pruning |
| `LoginLimiter.PruningLosesNothingRecent` | src/auth.rs:343-349 | Stores with and without pruning agree on every window younger than the retention |
| `LoginLimiter.TwoRowsSuffice` | src/auth.rs:70-113 | The number of active workspaces fetched never matters iff it is at least two |
| `LoginLimiter.TenantIsNeverGuessed` | src/auth.rs:70-78 | A workspace is chosen iff it is the default, or there is no default and it is the only active one |
| `EvaluationLease.ClaimTable.Acquire` | src/main.rs:999-1020 | Inserts a claim or takes over an expired one, and says whether it did |
| `EvaluationLease.ClaimTable.Release` | src/main.rs:1031-1040 | Deletes the claim only under the claimant's own name |
| `EvaluationLease.HolderOwnsRow` | src/main.rs:999-1016 | While a lease is unexpired and unreleased, the row carries its claimant and expiry |
| `EvaluationLease.AtMostOneHolder` | src/main.rs:999-1020 | With distinct claimants at most one holds a subject at any moment of any history |
| `EvaluationLease.StaleReleaseIsHarmless` | src/main.rs:1028-1040 | Another claimant's release never removes the holder's claim |
| `EvaluationLease.ClaimIsFreed` | src/main.rs:1002-1040 | The holder's release frees the subject at once, an abandoned claim exactly at expiry |
| `LabelAuthority.BestLabel` | src/db.rs:2239-2251 | The loop equals the fold: strongest label, or the first unknown disposition |
| `LabelAuthority.ComputeActiveDisposition` | src/db.rs:2216-2251 | The fold over the live rows |
| `LabelAuthority.ComputeManualDisposition` | src/db.rs:2293-2327 | The fold over the live manual rows |
| `LabelAuthority.WinnerOutranksAll` | src/db.rs:2210-2215 | The winner is manual before automatic and then most restrictive; an error iff some disposition is unknown |
| `LabelAuthority.OrderIrrelevant` | src/db.rs:2216-2251 | The answer depends on which labels exist, not on their order or number |
| `LabelAuthority.OnlyLiveLabelsCount` | src/db.rs:2222-2229 | A label revoked, or whose expiry has come, plays no part, and any other of known disposition is read |
| `LabelAuthority.ManualLabelsDecide` | src/db.rs:2285-2327 | With a live manual label and known dispositions, active and manual disposition coincide |
| `LabelAuthority.ManualSkipWins` | src/db.rs:2210-2215 | With a live manual skip the answer is skip iff every live disposition is known |
| `LabelAuthority.StopIsMonotone` | src/db.rs:2268-2284 | Tightening labels in place never lets a stopped trace walk on |
| `LabelAuthority.AddedLabelReopensTrace` | src/graph.rs:342-346 | A label added to a stopped wallet lets the trace walk on iff it is a live manual watch or score and no manual label was live |
| `LabelAuthority.ManualWatchReopensTrace` | src/db.rs:2268-2278 | For instance, a manual watch beside an automatic flow_only |
| `LabelAuthority.PolicyFromLabels` | src/filter.rs:161-196 | Errors iff some live disposition is unknown; otherwise the disposition is the most restrictive among the labels that count, watch when none does, with scoring, deep sync and trace stop read off the same labels; manual labels count alone when there are any |
| `LabelAuthority.EffectiveIsNamed` | src/models.rs:178-196 | The parsed disposition is the one named by the winning label |
| `LabelAuthority.ApplyAutomaticDisposition` | src/filter.rs:90-143 | The branches of the automatic path: answer and written label |
| `LabelAuthority.AutomaticAnswerIsEffective` | src/filter.rs:79-176 | It answers, and with the effective disposition afterwards, iff every live disposition is known and a manual label exists, it auto-skipped, or some label is live and all live ones say score |
| `LabelAuthority.AutoSkipStands` | src/filter.rs:79-138 | An automatic skip stands at every later time until a manual label is added, which then decides |
| `LabelAuthority.AutoSkipNeedsAllThree` | src/filter.rs:62-66 | An automatic skip needs an execution bot label, a likelihood of nine tenths and a hundred swaps |
| `LabelAuthority.AnnotationsNeverSkip` | src/filter.rs:30-74 | Labels other than the two execution bots never change the classification |
| `QueuePausing.QueueState.PauseBottomUp` | src/queues.rs:59-73 | The loop with its running count equals the recursive pausing function |
| `QueuePausing.QueueState.ResumeAll` | src/queues.rs:76-80 | Clears every listed queue and no other entry |
| `QueuePausing.PauseBottomUpContract` | src/queues.rs:56-73 | Never changes live_watch, leaves no lower queue running above a newly paused one, and reaches the target as far as queues can be paused |
| `QueuePausing.PausingComposes` | src/queues.rs:59-73 | Pausing to m and then to n is pausing to the larger |
| `QueuePausing.LowerPrecedencePausedFirst` | src/queues.rs:22-29 | Under any distinct precedence list a newly paused queue has all lower ones paused |
| `QueuePausing.PausedCount` | src/queues.rs:59-73 | The final count is the initial one or the target capped by what can be paused |
| `QueuePausing.PausedWhenNeeded` | src/queues.rs:59-73 | A running queue is paused iff the target is unmet with everything pausable below it paused |
| `QueuePausing.PrecedenceOrder` | src/queues.rs:21-29 | From nothing paused, queues give way in this order: signal_eval, historical_backfill, seed_sync, telegram_ingest, funding_radar, never live_watch |
| `QueuePausing.QueueState.BackfillAllowed` | src/queues.rs:83-86 | Allowed iff backfill is not paused and its lag, zero when unknown, is below the limit |
| `QueuePausing.BackfillGoesSecond` | src/queues.rs:59-86 | A running backfill goes on after pausing iff the target is met by what was paused and signal evaluation |

## Left out

- PostgreSQL itself: catalogs, collations, roles, search path, the CHECK and collation gates around the ledger (src/db.rs:1029-1211), and a migration body that writes the ledger table itself.
- The ledger bootstrap DDL and ledgers without the digest or provenance column; a missing column value is modelled as an absent option.
- Losing the lock connection while the migrator runs on: the lock is held until its process ends.
- The other two preflight repairs (src/db.rs:379-432, 519-625), which work around casts and nullability.
- SHA-256 and its line-ending normalisation: the digest is a parameter, an arbitrary function of the text.
- PostgreSQL's bigint parsing in alert keys: a parameter that must read back the ids the repair prints.
- AlertRekey.SentStaysSent: which of several sent rows lends a folded row its time is the database's choice, so it is any of them.
- FundingRepair.RepairStore.Repair: lanes without the workspace column or without the alert columns are not modelled, because the groups and steps are then a special case of these.
- WalletClusters.ClusterStore.RebuildClusterFor: one chain is fixed, because rows of different chains never meet in the rebuild; rebuilds do not overlap, and the edges, which src/graph.rs:183-199 reads before the transaction begins, are read in the same step as the rest.
- WeightedBucket.GrantsBounded: time and tokens are real numbers; floating-point rounding, nanosecond durations and a clock read twice in one call are not modelled.
- ProviderKeys.GrantsBounded: the same holds for provider keys.
- FairPicking.PickContract: the clock is fixed during a call and calls do not interleave; the sum of cursor and offset wraps as in a release build, where a debug build would stop.
- HeliusPool.HeliusPool.RequestJson: when keys are picked and what is answered are parameters; usage accounting, the request body and the sleep itself with its cap of two seconds are not part of it. A send after a wait takes no token (src/helius.rs:354-358), which is why the interval bounds are about grants and not about sends.
- FundingRadar.RadarStore.EvaluateRadarCase: one call is one step; concurrent evaluators are not modelled, nor are the JSON stored on the case row, update times, wallet rows and the fan-out count, which is a parameter.
- FundingRadar.QualifyingIsMonotone: amounts are exact numbers, without decimal rounding in the database.
- LoginLimiter.LoginStore.LoginSubmit: handlers are serialised; bcrypt, the key derived from the client address, session tokens and cookies are parameters or absent.
- LabelAuthority.AnnotationsNeverSkip: the likelihood is a real number, so comparisons with a missing or NaN value are not modelled.
- EvaluationLease.AtMostOneHolder: the evaluator run under the claim and its own fencing are not part of this model.
- The signal evaluator, outbox drain, scoring and recent pipeline: not part of this model.
- HTTP routes, pages, cookies, provider and Telegram I/O, JSON and Decimal formatting.
- src/maintenance.rs, src/replay.rs, src/narrative.rs, src/health.rs and src/config.rs: filters, clamps and status reporting that would add only easy members.
