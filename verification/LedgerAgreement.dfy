/** One uninterrupted run: the migrator and the verifier, written separately, agree. */
module LedgerAgreement {
  import opened Util
  import opened Manifest
  import opened MigrationBundle
  import opened MigrationLedger

  /** The manifest vouches for every file, as a built bundle's does. */
  ghost predicate Vouched(entries: seq<Migration>, manifest: map<string, string>, hash: Hash) {
    forall m | m in entries :: m.name in manifest && manifest[m.name] == hash(m.sql) && IsDigest(hash(m.sql))
  }

  lemma ReviewedIsVouched(b: Bundle, hash: Hash)
    requires Reviewed(b, hash)
    ensures Vouched(b.entries, b.manifest, hash)
  {
    forall m | m in b.entries
      ensures m.name in b.manifest
    {
      assert m.name in Names(b.entries);
    }
  }

  /** A digest is never mistaken for a baseline, and a stored baseline gives its digest back. */
  lemma RecordedForms(digest: string)
    requires IsDigest(digest)
    ensures RecordedDigest(digest) == digest && RecordedDigest(BASELINE_PREFIX + digest) == digest
  {
    assert digest[2] in digest && BASELINE_PREFIX[2] == 's';
    Unprefixed(digest);
  }

  lemma Unprefixed(digest: string)
    ensures RecordedDigest(BASELINE_PREFIX + digest) == digest
  {
    assert (BASELINE_PREFIX + digest)[|BASELINE_PREFIX|..] == digest;
  }

  /** The re-declaration path accepts whatever digest is recorded, without looking at the file. */
  predicate RedeclaresWrongly(ledger: Ledger, m: Migration, hash: Hash) {
    && m.name in ledger && ledger[m.name].sha256.Some? && ledger[m.name].digestOrigin.None?
    && RecordedDigest(ledger[m.name].sha256.value) != hash(m.sql)
  }

  // ----- What a run leaves behind -----

  /** Rows are never dropped, complete rows never change, and what ran stays ran. */
  ghost predicate Extends(before: Db, after: Db) {
    && before.ledger.Keys <= after.ledger.Keys && before.executed <= after.executed
    && forall name | name in before.ledger && Complete(before.ledger[name]) :: after.ledger[name] == before.ledger[name]
  }

  /** One file's turn, when the migrator does not stop at it. */
  function Turn(db: Db, m: Migration, manifest: map<string, string>, hash: Hash, accept: bool): Db {
    match Decide(Lookup(db.ledger, m.name), m, manifest, hash, accept)
    case Redeclare(row) => db.(ledger := db.ledger[m.name := row])
    case Execute => Db(db.ledger[m.name := AppliedRow(m, hash)], db.executed + [m])
    case _ => db
  }

  predicate Stops(db: Db, m: Migration, manifest: map<string, string>, hash: Hash, accept: bool, runs: Runs) {
    var action := Decide(Lookup(db.ledger, m.name), m, manifest, hash, accept);
    action.Refuse? || (action.Execute? && !runs(db.executed, m))
  }

  lemma MigrateByTurns(db: Db, entries: seq<Migration>, manifest: map<string, string>, hash: Hash, accept: bool, runs: Runs)
    requires entries != []
    ensures var m := entries[0];
            if Stops(db, m, manifest, hash, accept, runs)
            then Migrate(db, entries, manifest, hash, accept, runs).0 == db && Migrate(db, entries, manifest, hash, accept, runs).1.Some?
            else Migrate(db, entries, manifest, hash, accept, runs) ==
                 Migrate(Turn(db, m, manifest, hash, accept), entries[1..], manifest, hash, accept, runs)
  {
  }

  lemma TurnExtends(db: Db, m: Migration, manifest: map<string, string>, hash: Hash, accept: bool)
    ensures Extends(db, Turn(db, m, manifest, hash, accept))
    ensures forall name | name != m.name :: Lookup(Turn(db, m, manifest, hash, accept).ledger, name) == Lookup(db.ledger, name)
  {
  }

  /** After its turn a file's row is complete, and matches unless it was re-declared wrongly. */
  lemma TurnCompletes(db: Db, m: Migration, manifest: map<string, string>, hash: Hash, accept: bool, runs: Runs)
    requires m.name in manifest && manifest[m.name] == hash(m.sql) && IsDigest(hash(m.sql))
    requires !Stops(db, m, manifest, hash, accept, runs)
    ensures var after := Turn(db, m, manifest, hash, accept).ledger;
            && m.name in after && Complete(after[m.name])
            && (Matches(after, m, hash) <==> !RedeclaresWrongly(db.ledger, m, hash))
    ensures !accept ==> !RedeclaresWrongly(db.ledger, m, hash)
  {
    hide IsBaseline, RecordedDigest, IsDigest;
    RecordedForms(hash(m.sql));
    if m.name in db.ledger && db.ledger[m.name].sha256.Some? {
      Unprefixed(RecordedDigest(db.ledger[m.name].sha256.value));
    }
  }

  lemma {:induction false} MigrateExtends(db: Db, entries: seq<Migration>, manifest: map<string, string>, hash: Hash, accept: bool, runs: Runs)
    ensures Extends(db, Migrate(db, entries, manifest, hash, accept, runs).0)
    ensures Migrate(db, entries, manifest, hash, accept, runs).0.ledger.Keys <= db.ledger.Keys + Names(entries)
    decreases |entries|
  {
    if entries != [] {
      hide Turn, Stops;
      var m := entries[0];
      assert m in entries && forall e | e in entries[1..] :: e in entries;
      MigrateByTurns(db, entries, manifest, hash, accept, runs);
      TurnExtends(db, m, manifest, hash, accept);
      var next := Turn(db, m, manifest, hash, accept);
      TurnKeys(db, m, manifest, hash, accept);
      MigrateExtends(next, entries[1..], manifest, hash, accept, runs);
    }
  }

  lemma TurnKeys(db: Db, m: Migration, manifest: map<string, string>, hash: Hash, accept: bool)
    ensures Turn(db, m, manifest, hash, accept).ledger.Keys <= db.ledger.Keys + {m.name}
  {
  }

  /** A run that reaches the end leaves every row complete, each matching exactly when not re-declared wrongly. */
  lemma {:induction false} MigrateCompletes(db: Db, entries: seq<Migration>, manifest: map<string, string>, hash: Hash, accept: bool, runs: Runs)
    requires DistinctNames(entries) && Vouched(entries, manifest, hash)
    requires Migrate(db, entries, manifest, hash, accept, runs).1.None?
    ensures var after := Migrate(db, entries, manifest, hash, accept, runs).0.ledger;
            forall m | m in entries ::
              && m.name in after && Complete(after[m.name])
              && (Matches(after, m, hash) <==> !RedeclaresWrongly(db.ledger, m, hash))
              && (!accept ==> !RedeclaresWrongly(db.ledger, m, hash))
    decreases |entries|
  {
    if entries != [] {
      hide Turn, Stops, RecordedDigest, IsDigest;
      var m, rest := entries[0], entries[1..];
      assert m in entries && forall e | e in rest :: e in entries;
      MigrateByTurns(db, entries, manifest, hash, accept, runs);
      TurnCompletes(db, m, manifest, hash, accept, runs);
      TurnExtends(db, m, manifest, hash, accept);
      var next := Turn(db, m, manifest, hash, accept);
      MigrateCompletes(next, rest, manifest, hash, accept, runs);
      MigrateExtends(next, rest, manifest, hash, accept, runs);
      forall e | e in rest
        ensures Lookup(next.ledger, e.name) == Lookup(db.ledger, e.name)
      {
        var i :| 0 <= i < |rest| && rest[i] == e;
        assert entries[i + 1].name != entries[0].name;
      }
    }
  }

  // ----- Main results -----

  /**
    * A successful run over a ledger without foreign names is accepted by the verifier exactly when no
    * row was re-declared with a digest other than the file's; without the legacy flag none ever is.
    */
  lemma MigrateThenVerify(db: Db, b: Bundle, hash: Hash, accept: bool, runs: Runs)
    requires Reviewed(b, hash) && DistinctNames(b.entries) && db.ledger.Keys <= Names(b.entries)
    requires Migrate(db, b.entries, b.manifest, hash, accept, runs).1.None?
    ensures var after := Migrate(db, b.entries, b.manifest, hash, accept, runs).0;
            && (Accepts(after.ledger, b, hash) <==> forall m | m in b.entries :: !RedeclaresWrongly(db.ledger, m, hash))
            && (!accept ==> Accepts(after.ledger, b, hash))
  {
    hide Migrate, RedeclaresWrongly;
    ReviewedIsVouched(b, hash);
    MigrateCompletes(db, b.entries, b.manifest, hash, accept, runs);
    MigrateExtends(db, b.entries, b.manifest, hash, accept, runs);
    var after := Migrate(db, b.entries, b.manifest, hash, accept, runs).0;
    forall name | name in Names(b.entries)
      ensures name in after.ledger
    {
      var m :| m in b.entries && m.name == name;
    }
    assert after.ledger.Keys == Names(b.entries);
  }

  /** Every row matches: the run touches nothing, under either flag. */
  lemma {:induction false} MatchingIsNoOp(db: Db, entries: seq<Migration>, manifest: map<string, string>, hash: Hash, accept: bool, runs: Runs)
    requires AllMatch(db.ledger, entries, hash)
    ensures Migrate(db, entries, manifest, hash, accept, runs) == (db, None)
    decreases |entries|
  {
    if entries != [] {
      assert entries[0] in entries && forall e | e in entries[1..] :: e in entries;
      assert Matches(db.ledger, entries[0], hash);
      MatchingIsNoOp(db, entries[1..], manifest, hash, accept, runs);
    }
  }

  /** A strict run that succeeds without executing or changing anything found every row matching. */
  lemma {:induction false} NoOpMatches(db: Db, entries: seq<Migration>, manifest: map<string, string>, hash: Hash, runs: Runs)
    requires Migrate(db, entries, manifest, hash, false, runs) == (db, None)
    ensures AllMatch(db.ledger, entries, hash)
    decreases |entries|
  {
    if entries != [] {
      var m := entries[0];
      MigrateByTurns(db, entries, manifest, hash, false, runs);
      var next := Turn(db, m, manifest, hash, false);
      MigrateExtends(next, entries[1..], manifest, hash, false, runs);
      assert |next.executed| <= |db.executed|;
      assert Matches(db.ledger, m, hash);
      NoOpMatches(db, entries[1..], manifest, hash, runs);
    }
  }

  /**
    * The two programs agree: the verifier accepts a ledger exactly when it names nothing foreign and a
    * strict migrator run succeeds on it without doing anything.
    */
  lemma VerifierAgreesWithMigrator(db: Db, b: Bundle, hash: Hash, runs: Runs)
    ensures Accepts(db.ledger, b, hash) <==>
              db.ledger.Keys <= Names(b.entries) && Migrate(db, b.entries, b.manifest, hash, false, runs) == (db, None)
  {
    hide Migrate;
    if Accepts(db.ledger, b, hash) {
      MatchingIsNoOp(db, b.entries, b.manifest, hash, false, runs);
    }
    if db.ledger.Keys <= Names(b.entries) && Migrate(db, b.entries, b.manifest, hash, false, runs) == (db, None) {
      NoOpMatches(db, b.entries, b.manifest, hash, runs);
      forall name | name in Names(b.entries)
        ensures name in db.ledger
      {
        var m :| m in b.entries && m.name == name;
        assert Matches(db.ledger, m, hash);
      }
    }
  }

  /** Running again after a strict success executes and changes nothing, whatever the flag. */
  lemma RerunIsNoOp(db: Db, b: Bundle, hash: Hash, runs: Runs, again: bool, runsAgain: Runs)
    requires Reviewed(b, hash) && DistinctNames(b.entries)
    requires Migrate(db, b.entries, b.manifest, hash, false, runs).1.None?
    ensures var after := Migrate(db, b.entries, b.manifest, hash, false, runs).0;
            Migrate(after, b.entries, b.manifest, hash, again, runsAgain) == (after, None)
  {
    hide Migrate;
    ReviewedIsVouched(b, hash);
    MigrateCompletes(db, b.entries, b.manifest, hash, false, runs);
    MatchingIsNoOp(Migrate(db, b.entries, b.manifest, hash, false, runs).0, b.entries, b.manifest, hash, again, runsAgain);
  }

  /** A run over complete rows never writes, and stops at the first row that does not match. */
  lemma {:induction false} CompleteRowsAreOnlyCompared(db: Db, entries: seq<Migration>, manifest: map<string, string>, hash: Hash, accept: bool, runs: Runs)
    requires forall m | m in entries :: m.name in db.ledger && Complete(db.ledger[m.name])
    ensures var (after, error) := Migrate(db, entries, manifest, hash, accept, runs);
            && after == db
            && (error.None? <==> AllMatch(db.ledger, entries, hash))
            && (error.Some? ==> error.value.Changed?)
    decreases |entries|
  {
    if entries != [] {
      assert entries[0] in entries && forall e | e in entries[1..] :: e in entries;
      assert forall e | e in entries :: e == entries[0] || e in entries[1..];
      CompleteRowsAreOnlyCompared(db, entries[1..], manifest, hash, accept, runs);
    }
  }

  /** What a wrong re-declaration hid, the next run reports: it refuses the file and changes nothing. */
  lemma NextRunExposesRedeclaration(db: Db, b: Bundle, hash: Hash, accept: bool, runs: Runs, again: bool, runsAgain: Runs)
    requires Reviewed(b, hash) && DistinctNames(b.entries) && db.ledger.Keys <= Names(b.entries)
    requires Migrate(db, b.entries, b.manifest, hash, accept, runs).1.None?
    ensures var after := Migrate(db, b.entries, b.manifest, hash, accept, runs).0;
            var (final, error) := Migrate(after, b.entries, b.manifest, hash, again, runsAgain);
            final == after && (error.None? <==> Accepts(after.ledger, b, hash)) && (error.Some? ==> error.value.Changed?)
  {
    hide Migrate;
    ReviewedIsVouched(b, hash);
    MigrateCompletes(db, b.entries, b.manifest, hash, accept, runs);
    MigrateExtends(db, b.entries, b.manifest, hash, accept, runs);
    var after := Migrate(db, b.entries, b.manifest, hash, accept, runs).0;
    CompleteRowsAreOnlyCompared(after, b.entries, b.manifest, hash, again, runsAgain);
    forall name | name in Names(b.entries)
      ensures name in after.ledger
    {
      var m :| m in b.entries && m.name == name;
    }
    assert after.ledger.Keys == Names(b.entries);
  }

  /** The legacy flag can succeed on a ledger the verifier then rejects. */
  lemma LegacySuccessCanBeRejected(hash: Hash, runs: Runs)
    requires IsDigest(hash("b"))
    ensures var m := Migration("a.sql", "b");
            var b := Bundle([m], map["a.sql" := hash("b")]);
            var db := Db(map["a.sql" := Row(Some("0"), None)], []);
            && Reviewed(b, hash)
            && Migrate(db, b.entries, b.manifest, hash, true, runs).1.None?
            && !Accepts(Migrate(db, b.entries, b.manifest, hash, true, runs).0.ledger, b, hash)
  {
    var m := Migration("a.sql", "b");
    var b := Bundle([m], map["a.sql" := hash("b")]);
    var db := Db(map["a.sql" := Row(Some("0"), None)], []);
    assert Names(b.entries) == {"a.sql"};
    assert b.entries[1..] == [] && m in b.entries;
    var row := Row(Some(BASELINE_PREFIX + "0"), Some(Baseline));
    assert Decide(Lookup(db.ledger, m.name), m, b.manifest, hash, true) == Redeclare(row);
    var after := db.(ledger := db.ledger[m.name := row]);
    assert Migrate(after, [], b.manifest, hash, true, runs) == (after, None);
    assert Migrate(db, b.entries, b.manifest, hash, true, runs) == (after, None);
    Unprefixed("0");
    assert !Matches(after.ledger, m, hash);
  }

  /** On a built bundle the two arms that distrust the manifest are never reached. */
  lemma {:induction false} ManifestArmsUnreachable(db: Db, entries: seq<Migration>, manifest: map<string, string>, hash: Hash, accept: bool, runs: Runs)
    requires Vouched(entries, manifest, hash)
    ensures var error := Migrate(db, entries, manifest, hash, accept, runs).1;
            error.Some? ==> !error.value.ManifestMismatch? && !error.value.NoManifestEntry?
    decreases |entries|
  {
    if entries != [] {
      assert entries[0] in entries && forall e | e in entries[1..] :: e in entries;
      MigrateByTurns(db, entries, manifest, hash, accept, runs);
      ManifestArmsUnreachable(Turn(db, entries[0], manifest, hash, accept), entries[1..], manifest, hash, accept, runs);
    }
  }

  // ----- One run in full, without its steps -----

  /** What a run that gets past a file leaves in its row: the first two forms are baselines, never verified. */
  function Reconciled(row: Option<Row>, m: Migration, hash: Hash): Row {
    match row
    case None => Row(Some(hash(m.sql)), Some(Applied))
    case Some(Row(None, _)) => Row(Some("baseline:" + hash(m.sql)), Some(Baseline))
    case Some(Row(Some(recorded), None)) =>
      Row(Some(if "baseline:" <= recorded then recorded else "baseline:" + recorded), Some(Baseline))
    case Some(r) => r
  }

  /** Why a file with this row stops the run, if it does; a file without a row stops it only by failing. */
  function FaultOf(row: Option<Row>, m: Migration, manifest: map<string, string>, hash: Hash, accept: bool): Option<MigrateError> {
    match row
    case None => None
    case Some(Row(Some(recorded), Some(_))) =>
      if recorded == hash(m.sql) && !("baseline:" <= recorded) then None
      else if recorded == "baseline:" + hash(m.sql) then None
      else Some(Changed(m.name))
    case Some(Row(Some(_), None)) => if accept then None else Some(Provenanceless(m.name))
    case Some(Row(None, _)) =>
      if m.name in manifest && manifest[m.name] == hash(m.sql) then if accept then None else Some(PreChecksum(m.name))
      else if m.name in manifest then Some(ManifestMismatch(m.name))
      else Some(NoManifestEntry(m.name))
  }

  /** The files the ledger has no row for, in bundle order. */
  function Missing(ledger: Ledger, entries: seq<Migration>): seq<Migration> {
    if entries == [] then []
    else (if entries[0].name in ledger then [] else [entries[0]]) + Missing(ledger, entries[1..])
  }

  /** What stops a run at file `i`, judged on the database it started from. */
  function StopAt(db: Db, entries: seq<Migration>, i: nat, manifest: map<string, string>, hash: Hash, accept: bool, runs: Runs): Option<MigrateError>
    requires i < |entries|
  {
    var m := entries[i];
    if m.name in db.ledger then FaultOf(Some(db.ledger[m.name]), m, manifest, hash, accept)
    else if runs(db.executed + Missing(db.ledger, entries[..i]), m) then None
    else Some(SqlFailed(m.name))
  }

  lemma {:induction false} MissingByNames(before: Ledger, after: Ledger, entries: seq<Migration>)
    requires forall m | m in entries :: m.name in before <==> m.name in after
    ensures Missing(before, entries) == Missing(after, entries)
  {
    if entries != [] {
      assert entries[0] in entries && forall m | m in entries[1..] :: m in entries;
      MissingByNames(before, after, entries[1..]);
    }
  }

  lemma DecisionIsFault(row: Option<Row>, m: Migration, manifest: map<string, string>, hash: Hash, accept: bool)
    ensures var action := Decide(row, m, manifest, hash, accept);
            match FaultOf(row, m, manifest, hash, accept)
            case Some(error) => action == Refuse(error)
            case None =>
              && !action.Refuse? && (action.Execute? <==> row.None?)
              && (action.Redeclare? ==> action.row == Reconciled(row, m, hash))
              && (action.Keep? ==> row == Some(Reconciled(row, m, hash)))
  {
    if row.Some? && row.value.sha256.Some? {
      var recorded := row.value.sha256.value;
      VouchesIsRecorded(recorded, hash(m.sql));
      if "baseline:" <= recorded {
        assert recorded == "baseline:" + recorded[|BASELINE_PREFIX|..];
      }
    }
  }

  /** One file's turn, by its fault and its reconciled row. */
  lemma TurnReconciles(db: Db, m: Migration, manifest: map<string, string>, hash: Hash, accept: bool, runs: Runs)
    ensures var fault := FaultOf(Lookup(db.ledger, m.name), m, manifest, hash, accept);
            && (Stops(db, m, manifest, hash, accept, runs) <==> fault.Some? || (m.name !in db.ledger && !runs(db.executed, m)))
            && (fault.None? ==>
                  var after := Turn(db, m, manifest, hash, accept);
                  && after.ledger == db.ledger[m.name := Reconciled(Lookup(db.ledger, m.name), m, hash)]
                  && after.executed == db.executed + if m.name in db.ledger then [] else [m])
  {
    hide Decide, FaultOf, Reconciled;
    DecisionIsFault(Lookup(db.ledger, m.name), m, manifest, hash, accept);
    NoneReconciled(m, hash);
    assert m.name in db.ledger ==> db.ledger[m.name := db.ledger[m.name]] == db.ledger;
  }

  lemma NoneReconciled(m: Migration, hash: Hash)
    ensures Reconciled(None, m, hash) == AppliedRow(m, hash)
  {
  }

  /** What a run that passed exactly the first `n` files did. */
  ghost predicate Passes(db: Db, after: Db, entries: seq<Migration>, n: nat, hash: Hash)
    requires n <= |entries|
  {
    && after.executed == db.executed + Missing(db.ledger, entries[..n])
    && (forall j | 0 <= j < n :: Lookup(after.ledger, entries[j].name) == Some(Reconciled(Lookup(db.ledger, entries[j].name), entries[j], hash)))
    && (forall name | name !in Names(entries[..n]) :: Lookup(after.ledger, name) == Lookup(db.ledger, name))
  }

  lemma NothingPassed(db: Db, entries: seq<Migration>, hash: Hash)
    ensures Passes(db, db, entries, 0, hash)
  {
    assert entries[..0] == [];
  }

  /** The first file and the names of some that follow it. */
  lemma FirstAndRest(entries: seq<Migration>, n: nat)
    requires DistinctNames(entries) && n < |entries|
    ensures entries[..n + 1] == [entries[0]] + entries[1..][..n]
    ensures forall m | m in entries[1..][..n] :: m.name != entries[0].name
    ensures Names(entries[..n + 1]) == {entries[0].name} + Names(entries[1..][..n])
  {
    var rest := entries[1..][..n];
    forall m | m in rest
      ensures m.name != entries[0].name
    {
      var i :| 0 <= i < n && rest[i] == m;
      assert entries[i + 1].name != entries[0].name;
    }
    assert entries[..n + 1] == [entries[0]] + rest;
    var first := entries[..n + 1];
    assert forall m :: m in [entries[0]] + rest <==> m == entries[0] || m in rest;
    forall name
      ensures name in Names(first) <==> name == entries[0].name || name in Names(rest)
    {
      assert entries[0] in first;
      if name in Names(first) {
        var m :| m in first && m.name == name;
      }
      if name in Names(rest) {
        var m :| m in rest && m.name == name;
        assert m in first;
      }
    }
  }

  lemma OneMorePassed(db: Db, next: Db, after: Db, entries: seq<Migration>, n: nat, hash: Hash)
    requires entries != [] && DistinctNames(entries) && n < |entries|
    requires next.ledger == db.ledger[entries[0].name := Reconciled(Lookup(db.ledger, entries[0].name), entries[0], hash)]
    requires next.executed == db.executed + if entries[0].name in db.ledger then [] else [entries[0]]
    requires Passes(next, after, entries[1..], n, hash)
    ensures Passes(db, after, entries, n + 1, hash)
  {
    hide Reconciled, Names, Missing, DistinctNames;
    var rest := entries[1..];
    FirstAndRest(entries, n);
    MissingByNames(next.ledger, db.ledger, rest[..n]);
    MissingOfFirst(db.ledger, entries[0], rest[..n]);
    NameInFirst(rest, n);
    var head := if entries[0].name in db.ledger then [] else [entries[0]];
    assert db.executed + head + Missing(db.ledger, rest[..n]) == db.executed + (head + Missing(db.ledger, rest[..n]));
    forall name | name !in Names(entries[..n + 1])
      ensures Lookup(after.ledger, name) == Lookup(db.ledger, name)
    {
      assert name !in {entries[0].name} + Names(rest[..n]);
    }
    forall j | 0 <= j < n + 1
      ensures Lookup(after.ledger, entries[j].name) == Some(Reconciled(Lookup(db.ledger, entries[j].name), entries[j], hash))
    {
      if j > 0 {
        assert rest[j - 1] == entries[j] && rest[..n][j - 1] in rest[..n];
      } else {
        assert entries[0].name !in Names(rest[..n]);
      }
    }
  }

  lemma MissingOfFirst(ledger: Ledger, first: Migration, rest: seq<Migration>)
    ensures Missing(ledger, [first] + rest) == (if first.name in ledger then [] else [first]) + Missing(ledger, rest)
  {
    assert ([first] + rest)[1..] == rest;
  }

  /** A name none of the files has is not among theirs. */
  lemma NameInFirst(entries: seq<Migration>, n: nat)
    requires n <= |entries|
    ensures forall name | name in Names(entries[..n]) :: exists m :: m in entries[..n] && m.name == name
  {
  }

  /** Later files see the database the first turn left as they would see the one it found. */
  lemma StopLater(db: Db, next: Db, entries: seq<Migration>, i: nat, manifest: map<string, string>, hash: Hash, accept: bool, runs: Runs)
    requires DistinctNames(entries) && i + 1 < |entries|
    requires next.ledger == db.ledger[entries[0].name := Reconciled(Lookup(db.ledger, entries[0].name), entries[0], hash)]
    requires next.executed == db.executed + if entries[0].name in db.ledger then [] else [entries[0]]
    ensures StopAt(next, entries[1..], i, manifest, hash, accept, runs) == StopAt(db, entries, i + 1, manifest, hash, accept, runs)
  {
    hide Reconciled, FaultOf;
    var rest := entries[1..];
    assert rest[i] == entries[i + 1] && entries[i + 1].name != entries[0].name;
    FirstAndRest(entries, i);
    assert ([entries[0]] + rest[..i])[1..] == rest[..i];
    MissingByNames(next.ledger, db.ledger, rest[..i]);
    assert next.executed + Missing(next.ledger, rest[..i]) == db.executed + Missing(db.ledger, entries[..i + 1]);
  }

  /**
    * A run stops at the first file that the database it started from makes it stop at, with that file's
    * error, or nowhere. Every file before has its reconciled row, exactly the missing ones were executed, in
    * order, and nothing else changed.
    */
  lemma {:induction false} RunInFull(db: Db, entries: seq<Migration>, manifest: map<string, string>, hash: Hash, accept: bool, runs: Runs)
    returns (n: nat)
    requires DistinctNames(entries)
    ensures n <= |entries| && forall i | 0 <= i < n :: StopAt(db, entries, i, manifest, hash, accept, runs).None?
    ensures var (after, error) := Migrate(db, entries, manifest, hash, accept, runs);
            && Passes(db, after, entries, n, hash)
            && (if n < |entries| then error.Some? && error == StopAt(db, entries, n, manifest, hash, accept, runs) else error.None?)
    decreases |entries|
  {
    hide FaultOf, Reconciled, Stops, Turn, Passes;
    if entries == [] {
      n := 0;
      NothingPassed(db, entries, hash);
    } else {
      var m := entries[0];
      MigrateByTurns(db, entries, manifest, hash, accept, runs);
      TurnReconciles(db, m, manifest, hash, accept, runs);
      assert entries[..0] == [] && db.executed + [] == db.executed;
      if Stops(db, m, manifest, hash, accept, runs) {
        n := 0;
        NothingPassed(db, entries, hash);
        StopError(db, entries, manifest, hash, accept, runs);
      } else {
        var next := Turn(db, m, manifest, hash, accept);
        var k := RunInFull(next, entries[1..], manifest, hash, accept, runs);
        n := k + 1;
        OneMorePassed(db, next, Migrate(next, entries[1..], manifest, hash, accept, runs).0, entries, k, hash);
        forall i | 0 <= i < |entries| - 1
          ensures StopAt(next, entries[1..], i, manifest, hash, accept, runs) == StopAt(db, entries, i + 1, manifest, hash, accept, runs)
        {
          StopLater(db, next, entries, i, manifest, hash, accept, runs);
        }
        forall i | 0 <= i < n
          ensures StopAt(db, entries, i, manifest, hash, accept, runs).None?
        {
          if i > 0 {
            assert StopAt(next, entries[1..], i - 1, manifest, hash, accept, runs).None?;
          }
        }
      }
    }
  }

  lemma StopError(db: Db, entries: seq<Migration>, manifest: map<string, string>, hash: Hash, accept: bool, runs: Runs)
    requires entries != [] && Stops(db, entries[0], manifest, hash, accept, runs)
    ensures Migrate(db, entries, manifest, hash, accept, runs).1 == StopAt(db, entries, 0, manifest, hash, accept, runs)
    ensures StopAt(db, entries, 0, manifest, hash, accept, runs).Some?
  {
    hide FaultOf, Decide;
    DecisionIsFault(Lookup(db.ledger, entries[0].name), entries[0], manifest, hash, accept);
    assert entries[..0] == [] && db.executed + [] == db.executed;
    NoRowNoFault(entries[0], manifest, hash, accept);
  }

  lemma NoRowNoFault(m: Migration, manifest: map<string, string>, hash: Hash, accept: bool)
    ensures FaultOf(None, m, manifest, hash, accept) == None
  {
  }

  /**
    * After a run the verifier accepts, the baselines it reports are exactly the files whose row was
    * incomplete before the run or was a baseline already: bytes nobody observed never read as verified.
    */
  lemma CurrentListsBaselines(db: Db, b: Bundle, hash: Hash, accept: bool, runs: Runs)
    requires Reviewed(b, hash) && DistinctNames(b.entries)
    requires Migrate(db, b.entries, b.manifest, hash, accept, runs).1.None?
    requires Accepts(Migrate(db, b.entries, b.manifest, hash, accept, runs).0.ledger, b, hash)
    ensures var v := VerdictOn(Some(Migrate(db, b.entries, b.manifest, hash, accept, runs).0.ledger), b, hash);
            && v.Current?
            && forall m | m in b.entries :: m.name in v.baseline <==>
                 m.name in db.ledger && (!Complete(db.ledger[m.name]) || "baseline:" <= db.ledger[m.name].sha256.value)
  {
    hide Migrate, VerdictOn, Accepts, Reconciled, StopAt;
    ReviewedIsVouched(b, hash);
    var after := Migrate(db, b.entries, b.manifest, hash, accept, runs).0.ledger;
    CurrentMeansAccepted(after, b, hash);
    VerdictIsExplained(after, b, hash);
    var n := RunInFull(db, b.entries, b.manifest, hash, accept, runs);
    var v := VerdictOn(Some(after), b, hash);
    forall i | 0 <= i < |b.entries|
      ensures b.entries[i].name in v.baseline <==>
              b.entries[i].name in db.ledger && (!Complete(db.ledger[b.entries[i].name]) || "baseline:" <= db.ledger[b.entries[i].name].sha256.value)
    {
      var m := b.entries[i];
      assert m in b.entries;
      BaselineForm(Lookup(db.ledger, m.name), m, hash);
      assert Lookup(after, m.name) == Some(Reconciled(Lookup(db.ledger, m.name), m, hash));
      InNameSet(v.baseline, m.name);
      AcceptedByName(after, b.entries, m);
    }
  }

  lemma InNameSet(names: seq<string>, name: string)
    ensures name in NameSet(names) <==> name in names
  {
  }

  lemma AcceptedByName(rows: Ledger, entries: seq<Migration>, m: Migration)
    requires m in entries
    ensures m.name in AcceptedBaselines(rows, entries) <==>
            m.name in rows && rows[m.name].sha256.Some? && "baseline:" <= rows[m.name].sha256.value
  {
  }

  lemma BaselineForm(row: Option<Row>, m: Migration, hash: Hash)
    requires IsDigest(hash(m.sql))
    ensures var after := Reconciled(row, m, hash);
            && after.sha256.Some?
            && ("baseline:" <= after.sha256.value <==> row.Some? && (!Complete(row.value) || "baseline:" <= row.value.sha256.value))
  {
    var digest := hash(m.sql);
    assert digest[2] in digest && "baseline:"[2] == 's';
  }
}
