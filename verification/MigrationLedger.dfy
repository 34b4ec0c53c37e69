/** The migrator and the read-only verifier over the migration ledger (src/db.rs). */
module MigrationLedger {
  import opened Util
  import opened MigrationBundle

  datatype Origin = Applied | Baseline

  /** One ledger row, keyed by file name; either column may be missing on an old database. */
  datatype Row = Row(sha256: Option<string>, digestOrigin: Option<Origin>)

  type Ledger = map<string, Row>

  /** The database: its ledger, and every migration body that ever ran and committed. */
  datatype Db = Db(ledger: Ledger, executed: seq<Migration>)

  const BASELINE_PREFIX := "baseline:"

  predicate IsBaseline(recorded: string) {
    BASELINE_PREFIX <= recorded
  }

  /** The digest inside a recorded value, observed or accepted. */
  function RecordedDigest(recorded: string): string {
    if IsBaseline(recorded) then recorded[|BASELINE_PREFIX|..] else recorded
  }

  function Lookup(ledger: Ledger, name: string): Option<Row> {
    if name in ledger then Some(ledger[name]) else None
  }

  // ----- The migrator -----

  datatype MigrateError =
    | Provenanceless(name: string)
    | PreChecksum(name: string)
    | ManifestMismatch(name: string)
    | NoManifestEntry(name: string)
    | Changed(name: string)
    | SqlFailed(name: string)

  datatype Action = Keep | Redeclare(row: Row) | Execute | Refuse(error: MigrateError)

  /** What the migrator decides for one file from the row it read. */
  function Decide(row: Option<Row>, m: Migration, manifest: map<string, string>, hash: Hash, accept: bool): Action {
    var digest := hash(m.sql);
    match row
    case None => Execute
    case Some(Row(Some(recorded), None)) =>
      if !accept then Refuse(Provenanceless(m.name))
      else Redeclare(Row(Some(BASELINE_PREFIX + RecordedDigest(recorded)), Some(Baseline)))
    case Some(Row(None, _)) =>
      if m.name !in manifest then Refuse(NoManifestEntry(m.name))
      else if manifest[m.name] != digest then Refuse(ManifestMismatch(m.name))
      else if !accept then Refuse(PreChecksum(m.name))
      else Redeclare(Row(Some(BASELINE_PREFIX + digest), Some(Baseline)))
    case Some(Row(Some(recorded), Some(_))) =>
      if RecordedDigest(recorded) != digest then Refuse(Changed(m.name)) else Keep
  }

  function AppliedRow(m: Migration, hash: Hash): Row {
    Row(Some(hash(m.sql)), Some(Applied))
  }

  /** Whether a body runs without error on a database with this history. */
  type Runs = (seq<Migration>, Migration) -> bool

  /** One uninterrupted run over the remaining files. */
  function Migrate(db: Db, entries: seq<Migration>, manifest: map<string, string>, hash: Hash, accept: bool, runs: Runs)
    : (Db, Option<MigrateError>)
    decreases |entries|
  {
    if entries == [] then (db, None)
    else
      var m := entries[0];
      match Decide(Lookup(db.ledger, m.name), m, manifest, hash, accept)
      case Refuse(error) => (db, Some(error))
      case Keep => Migrate(db, entries[1..], manifest, hash, accept, runs)
      case Redeclare(row) => Migrate(db.(ledger := db.ledger[m.name := row]), entries[1..], manifest, hash, accept, runs)
      case Execute =>
        if !runs(db.executed, m) then (db, Some(SqlFailed(m.name)))
        else Migrate(Db(db.ledger[m.name := AppliedRow(m, hash)], db.executed + [m]), entries[1..], manifest, hash, accept, runs)
  }

  class Database {
    var ledger: Ledger
    var executed: seq<Migration>

    constructor ()
      ensures State() == Db(map[], [])
    {
      ledger, executed := map[], [];
    }

    function State(): Db
      reads this
    {
      Db(ledger, executed)
    }

    /** The branches taken for a file that already has a row. */
    method Reconcile(m: Migration, row: Row, manifest: map<string, string>, hash: Hash, accept: bool)
      returns (error: Option<MigrateError>)
      requires m.name in ledger && ledger[m.name] == row
      modifies this`ledger
      ensures var action := Decide(Some(row), m, manifest, hash, accept);
              match action
              case Refuse(e) => error == Some(e) && ledger == old(ledger)
              case Redeclare(r) => error == None && ledger == old(ledger)[m.name := r]
              case _ => error == None && ledger == old(ledger)
    {
      var digest := hash(m.sql);
      if row.sha256.Some? && row.digestOrigin.None? {
        if !accept {
          return Some(Provenanceless(m.name));
        }
        ledger := ledger[m.name := Row(Some(BASELINE_PREFIX + RecordedDigest(row.sha256.value)), Some(Baseline))];
        return None;
      }
      if row.sha256.None? {
        if m.name !in manifest {
          return Some(NoManifestEntry(m.name));
        }
        if manifest[m.name] != digest {
          return Some(ManifestMismatch(m.name));
        }
        if !accept {
          return Some(PreChecksum(m.name));
        }
        ledger := ledger[m.name := Row(Some(BASELINE_PREFIX + digest), Some(Baseline))];
        return None;
      }
      if RecordedDigest(row.sha256.value) != digest {
        return Some(Changed(m.name));
      }
      error := None;
    }

    method MigrateBundleWith(bundle: Bundle, hash: Hash, accept: bool, runs: Runs) returns (error: Option<MigrateError>)
      modifies this
      ensures (State(), error) == Migrate(old(State()), bundle.entries, bundle.manifest, hash, accept, runs)
    {
      var i := 0;
      while i < |bundle.entries|
        invariant i <= |bundle.entries|
        invariant Migrate(State(), bundle.entries[i..], bundle.manifest, hash, accept, runs) ==
                  Migrate(old(State()), bundle.entries, bundle.manifest, hash, accept, runs)
      {
        var m := bundle.entries[i];
        assert bundle.entries[i..][1..] == bundle.entries[i + 1..];
        i := i + 1;
        if m.name in ledger {
          var refused := Reconcile(m, ledger[m.name], bundle.manifest, hash, accept);
          if refused.Some? {
            return refused;
          }
        } else if runs(executed, m) {
          executed := executed + [m];
          ledger := ledger[m.name := AppliedRow(m, hash)];
        } else {
          return Some(SqlFailed(m.name));
        }
      }
      error := None;
    }
  }

  // ----- The verifier -----

  datatype Verdict =
    | Current(baseline: seq<string>)
    | NoLedger
    | Pending(names: seq<string>)
    | Mismatched(names: seq<string>)
    | Unknown(foreign: set<string>)
    | Unverifiable(names: seq<string>)
    | ProvenanceUnknown(undeclared: set<string>)

  predicate Complete(row: Row) {
    row.sha256.Some? && row.digestOrigin.Some?
  }

  /** The row vouches for exactly these bytes. */
  predicate Matches(ledger: Ledger, m: Migration, hash: Hash) {
    && m.name in ledger && Complete(ledger[m.name])
    && RecordedDigest(ledger[m.name].sha256.value) == hash(m.sql)
  }

  ghost predicate AllMatch(ledger: Ledger, entries: seq<Migration>, hash: Hash) {
    forall m | m in entries :: Matches(ledger, m, hash)
  }

  /** The ledger names exactly the files of the bundle and vouches for the bytes of each. */
  ghost predicate Accepts(ledger: Ledger, bundle: Bundle, hash: Hash) {
    ledger.Keys == Names(bundle.entries) && AllMatch(ledger, bundle.entries, hash)
  }

  /** The first list that is not empty decides, in this order. */
  function Judge(pending: seq<string>, mismatched: seq<string>, unknown: set<string>, unverifiable: seq<string>,
                 provenanceless: set<string>, baseline: seq<string>): Verdict {
    if pending != [] then Pending(pending)
    else if mismatched != [] then Mismatched(mismatched)
    else if unknown != {} then Unknown(unknown)
    else if unverifiable != [] then Unverifiable(unverifiable)
    else if provenanceless != {} then ProvenanceUnknown(provenanceless)
    else Current(baseline)
  }

  /** What comparing one file with its ledger row finds. */
  datatype Finding = IsPending | IsMismatched | IsUnverifiable | IsAccepted | IsVerified

  function FindingOf(rows: Ledger, m: Migration, hash: Hash): Finding {
    if m.name !in rows then IsPending
    else
      match rows[m.name].sha256
      case None => IsUnverifiable
      case Some(recorded) =>
        if RecordedDigest(recorded) != hash(m.sql) then IsMismatched else if IsBaseline(recorded) then IsAccepted else IsVerified
  }

  /** The files with one finding, in bundle order. */
  function FilesWith(rows: Ledger, entries: seq<Migration>, hash: Hash, finding: Finding): seq<string> {
    if entries == [] then []
    else
      var before := FilesWith(rows, entries[..|entries| - 1], hash, finding);
      var last := entries[|entries| - 1];
      if FindingOf(rows, last, hash) == finding then before + [last.name] else before
  }

  function Undeclared(rows: Ledger): set<string> {
    set name | name in rows && rows[name].sha256.Some? && rows[name].digestOrigin.None?
  }

  // ----- What the verdicts mean, read off the rows -----

  /** The recorded value is the digest itself, or the digest accepted as a baseline. */
  ghost predicate Vouches(recorded: string, digest: string) {
    (recorded == digest && !("baseline:" <= digest)) || recorded == "baseline:" + digest
  }

  ghost function FilesWithoutRow(rows: Ledger, entries: seq<Migration>): set<string> {
    set m | m in entries && m.name !in rows :: m.name
  }

  ghost function FilesThatDiffer(rows: Ledger, entries: seq<Migration>, hash: Hash): set<string> {
    set m | m in entries && m.name in rows && rows[m.name].sha256.Some? && !Vouches(rows[m.name].sha256.value, hash(m.sql)) :: m.name
  }

  ghost function RowsWithoutFile(rows: Ledger, entries: seq<Migration>): set<string> {
    set name | name in rows && forall m | m in entries :: m.name != name
  }

  ghost function FilesWithoutDigest(rows: Ledger, entries: seq<Migration>): set<string> {
    set m | m in entries && m.name in rows && rows[m.name].sha256.None? :: m.name
  }

  ghost function RowsWithoutOrigin(rows: Ledger): set<string> {
    set name | name in rows && rows[name].sha256.Some? && rows[name].digestOrigin.None?
  }

  ghost function AcceptedBaselines(rows: Ledger, entries: seq<Migration>): set<string> {
    set m | m in entries && m.name in rows && rows[m.name].sha256.Some? && "baseline:" <= rows[m.name].sha256.value :: m.name
  }

  ghost function NameSet(names: seq<string>): set<string> {
    set name | name in names
  }

  /** The verdict names the first fault there is, in this order, with exactly the files or rows that have it. */
  ghost predicate Explains(v: Verdict, rows: Ledger, entries: seq<Migration>, hash: Hash) {
    var without, differ := FilesWithoutRow(rows, entries), FilesThatDiffer(rows, entries, hash);
    var foreign, undigested, undeclared := RowsWithoutFile(rows, entries), FilesWithoutDigest(rows, entries), RowsWithoutOrigin(rows);
    match v
    case NoLedger => false
    case Pending(names) => NameSet(names) == without != {}
    case Mismatched(names) => without == {} && NameSet(names) == differ != {}
    case Unknown(names) => without == differ == {} && names == foreign != {}
    case Unverifiable(names) => without == differ == foreign == {} && NameSet(names) == undigested != {}
    case ProvenanceUnknown(names) => without == differ == foreign == undigested == {} && names == undeclared != {}
    case Current(names) =>
      without == differ == foreign == undigested == undeclared == {} && NameSet(names) == AcceptedBaselines(rows, entries)
  }

  lemma VouchesIsRecorded(recorded: string, digest: string)
    ensures Vouches(recorded, digest) <==> RecordedDigest(recorded) == digest
  {
    var prefix := "baseline:";
    assert (prefix + digest)[|prefix|..] == digest && (prefix + digest)[..|prefix|] == prefix;
    if prefix <= recorded {
      assert recorded == prefix + recorded[|prefix|..];
    }
  }

  lemma {:induction false} FilesWithIs(rows: Ledger, entries: seq<Migration>, hash: Hash, finding: Finding)
    ensures NameSet(FilesWith(rows, entries, hash, finding)) == set m | m in entries && FindingOf(rows, m, hash) == finding :: m.name
  {
    hide FindingOf;
    if entries != [] {
      var before, last := entries[..|entries| - 1], entries[|entries| - 1];
      FilesWithIs(rows, before, hash, finding);
      assert entries == before + [last];
      var earlier := FilesWith(rows, before, hash, finding);
      assert NameSet(earlier + [last.name]) == NameSet(earlier) + {last.name};
      var names := set m | m in entries && FindingOf(rows, m, hash) == finding :: m.name;
      var namesBefore := set m | m in before && FindingOf(rows, m, hash) == finding :: m.name;
      assert forall m :: m in entries <==> m in before || m == last;
      assert names == if FindingOf(rows, last, hash) == finding then namesBefore + {last.name} else namesBefore;
    }
  }

  lemma FindingMeans(rows: Ledger, m: Migration, hash: Hash)
    ensures FindingOf(rows, m, hash) == IsPending <==> m.name !in rows
    ensures FindingOf(rows, m, hash) == IsMismatched <==>
            m.name in rows && rows[m.name].sha256.Some? && !Vouches(rows[m.name].sha256.value, hash(m.sql))
    ensures FindingOf(rows, m, hash) == IsUnverifiable <==> m.name in rows && rows[m.name].sha256.None?
    ensures FindingOf(rows, m, hash) == IsAccepted <==>
            m.name in rows && rows[m.name].sha256.Some? && Vouches(rows[m.name].sha256.value, hash(m.sql)) &&
            "baseline:" <= rows[m.name].sha256.value
  {
    hide RecordedDigest, Vouches;
    if m.name in rows && rows[m.name].sha256.Some? {
      VouchesIsRecorded(rows[m.name].sha256.value, hash(m.sql));
    }
  }

  /** The lists of the verifier are the sets of the faults. */
  lemma ListsAreFaults(rows: Ledger, entries: seq<Migration>, hash: Hash)
    ensures NameSet(FilesWith(rows, entries, hash, IsPending)) == FilesWithoutRow(rows, entries)
    ensures NameSet(FilesWith(rows, entries, hash, IsMismatched)) == FilesThatDiffer(rows, entries, hash)
    ensures NameSet(FilesWith(rows, entries, hash, IsUnverifiable)) == FilesWithoutDigest(rows, entries)
    ensures FilesThatDiffer(rows, entries, hash) == {} ==>
              NameSet(FilesWith(rows, entries, hash, IsAccepted)) == AcceptedBaselines(rows, entries)
    ensures rows.Keys - Names(entries) == RowsWithoutFile(rows, entries)
  {
    hide FindingOf, Vouches, FilesWith, NameSet;
    FilesWithIs(rows, entries, hash, IsPending);
    FilesWithIs(rows, entries, hash, IsMismatched);
    FilesWithIs(rows, entries, hash, IsUnverifiable);
    FilesWithIs(rows, entries, hash, IsAccepted);
    forall m {
      FindingMeans(rows, m, hash);
    }
    if FilesThatDiffer(rows, entries, hash) == {} {
      forall m | m in entries && m.name in rows && rows[m.name].sha256.Some?
        ensures Vouches(rows[m.name].sha256.value, hash(m.sql))
      {
        assert m.name !in FilesThatDiffer(rows, entries, hash);
      }
    }
  }

  lemma EmptyListed(names: seq<string>)
    ensures NameSet(names) == {} <==> names == []
  {
    assert names != [] ==> names[0] in NameSet(names);
  }

  /** Every verdict is explained by the rows. */
  lemma VerdictIsExplained(rows: Ledger, bundle: Bundle, hash: Hash)
    ensures Explains(VerdictOn(Some(rows), bundle, hash), rows, bundle.entries, hash)
  {
    hide FilesWith, NameSet, FilesWithoutRow, FilesThatDiffer, RowsWithoutFile, FilesWithoutDigest, AcceptedBaselines, Names;
    ListsAreFaults(rows, bundle.entries, hash);
    EmptyListed(FilesWith(rows, bundle.entries, hash, IsPending));
    EmptyListed(FilesWith(rows, bundle.entries, hash, IsMismatched));
    EmptyListed(FilesWith(rows, bundle.entries, hash, IsUnverifiable));
    assert Undeclared(rows) == RowsWithoutOrigin(rows);
  }

  function VerdictOn(ledger: Option<Ledger>, bundle: Bundle, hash: Hash): Verdict {
    match ledger
    case None => NoLedger
    case Some(rows) =>
      Judge(FilesWith(rows, bundle.entries, hash, IsPending), FilesWith(rows, bundle.entries, hash, IsMismatched),
            rows.Keys - Names(bundle.entries), FilesWith(rows, bundle.entries, hash, IsUnverifiable),
            Undeclared(rows), FilesWith(rows, bundle.entries, hash, IsAccepted))
  }

  method EnsureSchemaCurrent(ledger: Option<Ledger>, bundle: Bundle, hash: Hash) returns (verdict: Verdict)
    ensures verdict == VerdictOn(ledger, bundle, hash)
    ensures verdict.NoLedger? <==> ledger.None?
    ensures ledger.Some? ==> Explains(verdict, ledger.value, bundle.entries, hash)
    ensures verdict.Current? <==> ledger.Some? && Accepts(ledger.value, bundle, hash)
  {
    hide Explains, Accepts;
    if ledger.None? {
      return NoLedger;
    }
    var rows := ledger.value;
    var pending, mismatched, unverifiable, baseline := CompareRows(rows, bundle.entries, hash);
    verdict := Judge(pending, mismatched, rows.Keys - Names(bundle.entries), unverifiable, Undeclared(rows), baseline);
    VerdictIsExplained(rows, bundle, hash);
    CurrentMeansAccepted(rows, bundle, hash);
  }

  method CompareRows(rows: Ledger, entries: seq<Migration>, hash: Hash)
    returns (pending: seq<string>, mismatched: seq<string>, unverifiable: seq<string>, baseline: seq<string>)
    ensures pending == FilesWith(rows, entries, hash, IsPending)
    ensures mismatched == FilesWith(rows, entries, hash, IsMismatched)
    ensures unverifiable == FilesWith(rows, entries, hash, IsUnverifiable)
    ensures baseline == FilesWith(rows, entries, hash, IsAccepted)
  {
    pending, mismatched, unverifiable, baseline := [], [], [], [];
    for i := 0 to |entries|
      invariant pending == FilesWith(rows, entries[..i], hash, IsPending)
      invariant mismatched == FilesWith(rows, entries[..i], hash, IsMismatched)
      invariant unverifiable == FilesWith(rows, entries[..i], hash, IsUnverifiable)
      invariant baseline == FilesWith(rows, entries[..i], hash, IsAccepted)
    {
      var m := entries[i];
      assert entries[..i + 1][..i] == entries[..i];
      if m.name !in rows {
        pending := pending + [m.name];
      } else if rows[m.name].sha256.None? {
        unverifiable := unverifiable + [m.name];
      } else if IsBaseline(rows[m.name].sha256.value) {
        if RecordedDigest(rows[m.name].sha256.value) != hash(m.sql) {
          mismatched := mismatched + [m.name];
        } else {
          baseline := baseline + [m.name];
        }
      } else if rows[m.name].sha256.value != hash(m.sql) {
        mismatched := mismatched + [m.name];
      }
    }
    assert entries[..|entries|] == entries;
  }

  lemma {:induction false} NoFileWith(rows: Ledger, entries: seq<Migration>, hash: Hash, finding: Finding)
    ensures FilesWith(rows, entries, hash, finding) == [] <==> forall m | m in entries :: FindingOf(rows, m, hash) != finding
  {
    hide FindingOf;
    if entries != [] {
      NoFileWith(rows, entries[..|entries| - 1], hash, finding);
      assert entries == entries[..|entries| - 1] + [entries[|entries| - 1]];
    }
  }

  /** With every reported list empty, exactly the names of the bundle are recorded, each vouching for its bytes. */
  lemma CurrentMeansAccepted(rows: Ledger, bundle: Bundle, hash: Hash)
    ensures VerdictOn(Some(rows), bundle, hash).Current? <==> Accepts(rows, bundle, hash)
  {
    hide FilesWith, RecordedDigest;
    NoFileWith(rows, bundle.entries, hash, IsPending);
    NoFileWith(rows, bundle.entries, hash, IsMismatched);
    NoFileWith(rows, bundle.entries, hash, IsUnverifiable);
    if Accepts(rows, bundle, hash) {
      forall name | name in rows
        ensures name !in Undeclared(rows)
      {
        var m :| m in bundle.entries && m.name == name;
        assert Matches(rows, m, hash);
      }
      assert forall m | m in bundle.entries :: Matches(rows, m, hash);
      assert rows.Keys - Names(bundle.entries) == {};
    }
    if VerdictOn(Some(rows), bundle, hash).Current? {
      forall m | m in bundle.entries
        ensures Matches(rows, m, hash)
      {
        assert m.name !in Undeclared(rows);
      }
      forall name | name in rows
        ensures name in Names(bundle.entries)
      {
        assert name !in rows.Keys - Names(bundle.entries);
      }
      assert rows.Keys == Names(bundle.entries);
    }
  }
}
