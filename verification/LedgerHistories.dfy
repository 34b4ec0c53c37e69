/** Any number of migrators, started, interrupted and contending for the advisory lock at will. */
module LedgerHistories {
  import opened Util
  import opened Manifest
  import opened MigrationBundle
  import opened MigrationLedger
  import opened LedgerAgreement

  datatype Job = Job(entries: seq<Migration>, manifest: map<string, string>, accept: bool)

  /** Reading the row of a file and committing what follows from it are two steps. */
  datatype Phase = Waiting | Reading(at: nat) | Deciding(at: nat, seen: Option<Row>) | Ended(ok: bool)

  datatype Process = Process(job: Job, phase: Phase)

  datatype System = System(db: Db, holder: Option<nat>, procs: map<nat, Process>)

  datatype Event =
    | Start(pid: nat, job: Job)
    | Acquire(pid: nat)
    | Read(pid: nat)
    | Commit(pid: nat, sqlOk: bool)
    | Crash(pid: nat)

  function Goto(s: System, pid: nat, phase: Phase): System
    requires pid in s.procs
  {
    s.(procs := s.procs[pid := s.procs[pid].(phase := phase)])
  }

  /** However a process ends, the session that holds the lock ends with it. */
  function End(s: System, pid: nat, ok: bool): System
    requires pid in s.procs
  {
    Goto(s.(holder := if s.holder == Some(pid) then None else s.holder), pid, Ended(ok))
  }

  /** A failing body, or a row that is already there, rolls the whole transaction back. */
  function Committed(s: System, pid: nat, sqlOk: bool, hash: Hash): System
    requires pid in s.procs && s.procs[pid].phase.Deciding? && s.procs[pid].phase.at < |s.procs[pid].job.entries|
  {
    var Process(job, Deciding(at, seen)) := s.procs[pid];
    var m, db := job.entries[at], s.db;
    match Decide(seen, m, job.manifest, hash, job.accept)
    case Refuse(_) => End(s, pid, false)
    case Keep => Goto(s, pid, Reading(at + 1))
    case Redeclare(row) =>
      Goto(s.(db := if m.name in db.ledger then db.(ledger := db.ledger[m.name := row]) else db), pid, Reading(at + 1))
    case Execute =>
      if !sqlOk || m.name in db.ledger then End(s, pid, false)
      else Goto(s.(db := Db(db.ledger[m.name := AppliedRow(m, hash)], db.executed + [m])), pid, Reading(at + 1))
  }

  function Next(s: System, e: Event, hash: Hash): System {
    match e
    case Start(pid, job) => if pid in s.procs then s else s.(procs := s.procs[pid := Process(job, Waiting)])
    case Acquire(pid) =>
      if pid in s.procs && s.procs[pid].phase.Waiting? && s.holder.None? then Goto(s.(holder := Some(pid)), pid, Reading(0)) else s
    case Read(pid) =>
      if pid in s.procs && s.procs[pid].phase.Reading? then
        var Process(job, Reading(at)) := s.procs[pid];
        if at >= |job.entries| then End(s, pid, true)
        else Goto(s, pid, Deciding(at, Lookup(s.db.ledger, job.entries[at].name)))
      else s
    case Commit(pid, sqlOk) =>
      if pid in s.procs && s.procs[pid].phase.Deciding? && s.procs[pid].phase.at < |s.procs[pid].job.entries|
      then Committed(s, pid, sqlOk, hash) else s
    case Crash(pid) => if pid in s.procs && !s.procs[pid].phase.Ended? then End(s, pid, false) else s
  }

  /** Every history starts from some ledger, with no process and nothing executed yet. */
  function Initial(ledger: Ledger): System {
    System(Db(ledger, []), None, map[])
  }

  function Run(ledger: Ledger, events: seq<Event>, hash: Hash): System {
    if events == [] then Initial(ledger)
    else Next(Run(ledger, events[..|events| - 1], hash), events[|events| - 1], hash)
  }

  // ----- Mutual exclusion -----

  predicate Active(p: Process) {
    p.phase.Reading? || p.phase.Deciding?
  }

  /** Only the holder is past the lock, and the row it decides on is still the current one. */
  ghost predicate Exclusive(s: System) {
    && (forall pid | pid in s.procs && Active(s.procs[pid]) :: s.holder == Some(pid))
    && (forall pid | pid in s.procs && s.procs[pid].phase.Deciding? ::
          var p := s.procs[pid];
          p.phase.at < |p.job.entries| && p.phase.seen == Lookup(s.db.ledger, p.job.entries[p.phase.at].name))
  }

  lemma StepKeepsExclusive(s: System, e: Event, hash: Hash)
    requires Exclusive(s)
    ensures Exclusive(Next(s, e, hash))
  {
    hide Decide, AppliedRow;
  }

  /** Every write to the database is the atomic turn of one file on the ledger as it stands. */
  lemma EveryWriteIsATurn(s: System, e: Event, hash: Hash)
    requires Exclusive(s) && Next(s, e, hash).db != s.db
    ensures e.Commit? && e.pid in s.procs && s.procs[e.pid].phase.Deciding?
    ensures var Process(job, Deciding(at, _)) := s.procs[e.pid];
            at < |job.entries| && Next(s, e, hash).db == Turn(s.db, job.entries[at], job.manifest, hash, job.accept)
  {
  }

  // ----- What the ledger proves about the past -----

  /** An incomplete row completed: marked as a baseline in value and origin, with the digest it had, if any. */
  ghost predicate Redeclared(before: Row, row: Row) {
    && !Complete(before) && row.sha256.Some? && "baseline:" <= row.sha256.value && row.digestOrigin == Some(Baseline)
    && (before.sha256.Some? ==> row.sha256 == before.sha256 || row.sha256.value == "baseline:" + before.sha256.value)
  }

  /** Rows come only from executions of this history or from the start, and say which. */
  ghost predicate Provenance(start: Ledger, db: Db, hash: Hash) {
    && Extends(Db(start, []), db)
    && (forall i, j | 0 <= i < j < |db.executed| :: db.executed[i].name != db.executed[j].name)
    && (forall m | m in db.executed :: m.name !in start && Lookup(db.ledger, m.name) == Some(AppliedRow(m, hash)))
    && (forall name | name in db.ledger && name !in start :: exists m :: m in db.executed && m.name == name)
    && (forall name | name in start && db.ledger[name] != start[name] :: Redeclared(start[name], db.ledger[name]))
  }

  /** A turn executes a file without a row, or completes an incomplete row as a baseline, or does nothing. */
  lemma TurnShape(db: Db, m: Migration, manifest: map<string, string>, hash: Hash, accept: bool)
    ensures var after := Turn(db, m, manifest, hash, accept);
            || after == db
            || (m.name !in db.ledger && after == Db(db.ledger[m.name := AppliedRow(m, hash)], db.executed + [m]))
            || (m.name in db.ledger && !Complete(db.ledger[m.name]) && after.executed == db.executed &&
                after.ledger.Keys == db.ledger.Keys && after.ledger == db.ledger[m.name := after.ledger[m.name]] &&
                Redeclared(db.ledger[m.name], after.ledger[m.name]))
  {
    if m.name in db.ledger && db.ledger[m.name].sha256.Some? {
      var recorded := db.ledger[m.name].sha256.value;
      if "baseline:" <= recorded {
        assert recorded == "baseline:" + recorded[|BASELINE_PREFIX|..];
      }
    }
  }

  lemma ExecutionKeepsProvenance(start: Ledger, db: Db, m: Migration, hash: Hash)
    requires Provenance(start, db, hash) && m.name !in db.ledger
    ensures Provenance(start, Db(db.ledger[m.name := AppliedRow(m, hash)], db.executed + [m]), hash)
  {
    hide AppliedRow;
    var after := Db(db.ledger[m.name := AppliedRow(m, hash)], db.executed + [m]);
    forall e | e in after.executed
      ensures e.name !in start && Lookup(after.ledger, e.name) == Some(AppliedRow(e, hash))
    {
      assert e in db.executed || e == m;
    }
    forall name | name in after.ledger && name !in start
      ensures exists e :: e in after.executed && e.name == name
    {
      if name in db.ledger {
        var e :| e in db.executed && e.name == name;
        assert e in after.executed;
      } else {
        assert m in after.executed;
      }
    }
    forall i, j | 0 <= i < j < |after.executed|
      ensures after.executed[i].name != after.executed[j].name
    {
      assert after.executed[i] in db.executed;
    }
  }

  lemma RedeclarationKeepsProvenance(start: Ledger, db: Db, name: string, row: Row, hash: Hash)
    requires Provenance(start, db, hash) && name in db.ledger && Redeclared(db.ledger[name], row)
    ensures Provenance(start, db.(ledger := db.ledger[name := row]), hash)
  {
    forall e | e in db.executed
      ensures e.name != name
    {
      assert Complete(AppliedRow(e, hash));
    }
  }

  lemma TurnKeepsProvenance(start: Ledger, db: Db, m: Migration, manifest: map<string, string>, hash: Hash, accept: bool)
    requires Provenance(start, db, hash)
    ensures Provenance(start, Turn(db, m, manifest, hash, accept), hash)
  {
    hide Turn, Provenance, AppliedRow;
    TurnShape(db, m, manifest, hash, accept);
    var after := Turn(db, m, manifest, hash, accept);
    if m.name !in db.ledger {
      ExecutionKeepsProvenance(start, db, m, hash);
    } else if after != db {
      RedeclarationKeepsProvenance(start, db, m.name, after.ledger[m.name], hash);
    }
  }

  lemma {:induction false} HistoryIsSound(ledger: Ledger, events: seq<Event>, hash: Hash)
    ensures Exclusive(Run(ledger, events, hash)) && Provenance(ledger, Run(ledger, events, hash).db, hash)
  {
    if events != [] {
      hide Next, Provenance, Turn;
      var before, e := events[..|events| - 1], events[|events| - 1];
      HistoryIsSound(ledger, before, hash);
      var s := Run(ledger, before, hash);
      StepKeepsExclusive(s, e, hash);
      if Next(s, e, hash).db != s.db {
        EveryWriteIsATurn(s, e, hash);
        var Process(job, Deciding(at, _)) := s.procs[e.pid];
        TurnKeepsProvenance(ledger, s.db, job.entries[at], job.manifest, hash, job.accept);
      }
    }
  }

  // ----- Main results -----

  /**
    * Over every history, each body is executed at most once and never for a name the ledger already
    * had, and its row, naming exactly the executed bytes as applied, is there from then on.
    */
  lemma ExecutedOnceWithItsRow(ledger: Ledger, events: seq<Event>, hash: Hash)
    ensures var db := Run(ledger, events, hash).db;
            && (forall i, j | 0 <= i < j < |db.executed| :: db.executed[i].name != db.executed[j].name)
            && (forall m | m in db.executed :: m.name !in ledger && Lookup(db.ledger, m.name) == Some(AppliedRow(m, hash)))
            && (forall name | name in db.ledger && name !in ledger :: exists m :: m in db.executed && m.name == name)
  {
    HistoryIsSound(ledger, events, hash);
  }

  /**
    * Over every history a row of the start that is not as it was is marked as an accepted baseline in value
    * and in origin, and keeps the digest it had: what was never observed never reads as verified.
    */
  lemma RedeclaredRowsAreMarked(ledger: Ledger, events: seq<Event>, hash: Hash, name: string)
    requires name in ledger
    ensures var db := Run(ledger, events, hash).db;
            name in db.ledger && (db.ledger[name] == ledger[name] || Redeclared(ledger[name], db.ledger[name]))
  {
    hide Run;
    HistoryIsSound(ledger, events, hash);
  }

  lemma ExtendsTransitive(a: Db, b: Db, c: Db)
    requires Extends(a, b) && Extends(b, c)
    ensures Extends(a, c)
  {
  }

  /** Between any two moments of a history rows stay, and a row with digest and provenance is frozen. */
  lemma {:induction false} CompleteRowsAreFrozen(ledger: Ledger, events: seq<Event>, i: nat, hash: Hash)
    requires i <= |events|
    ensures Extends(Run(ledger, events[..i], hash).db, Run(ledger, events, hash).db)
    decreases |events|
  {
    if i == |events| {
      assert events[..i] == events;
    } else {
      hide Next, Extends, Turn;
      var before, e := events[..|events| - 1], events[|events| - 1];
      assert before[..i] == events[..i];
      CompleteRowsAreFrozen(ledger, before, i, hash);
      HistoryIsSound(ledger, before, hash);
      var s := Run(ledger, before, hash);
      if Next(s, e, hash).db != s.db {
        EveryWriteIsATurn(s, e, hash);
        var Process(job, Deciding(at, _)) := s.procs[e.pid];
        TurnExtends(s.db, job.entries[at], job.manifest, hash, job.accept);
        ExtendsTransitive(Run(ledger, events[..i], hash).db, s.db, Next(s, e, hash).db);
      }
    }
  }

  /** An applied row was there at the start, unchanged, or names bytes executed in this history. */
  lemma AppliedMeansExecuted(ledger: Ledger, events: seq<Event>, hash: Hash, name: string)
    requires Lookup(Run(ledger, events, hash).db.ledger, name).Some?
    requires Run(ledger, events, hash).db.ledger[name].digestOrigin == Some(Applied)
    ensures var db := Run(ledger, events, hash).db;
            || (name in ledger && ledger[name] == db.ledger[name])
            || (exists m :: m in db.executed && m.name == name && db.ledger[name].sha256 == Some(hash(m.sql)))
  {
    hide Run;
    HistoryIsSound(ledger, events, hash);
    var db := Run(ledger, events, hash).db;
    if name !in ledger {
      var m :| m in db.executed && m.name == name;
      assert Lookup(db.ledger, m.name) == Some(AppliedRow(m, hash));
    }
  }

  // ----- Filename order -----

  ghost predicate OneBundle(events: seq<Event>, entries: seq<Migration>) {
    forall i | 0 <= i < |events| && events[i].Start? :: events[i].job.entries == entries
  }

  /** Exactly the first files have run, and they are what the ledger names. */
  ghost predicate PrefixDb(db: Db, entries: seq<Migration>) {
    db.executed <= entries && db.ledger.Keys == Names(db.executed)
  }

  /** Every process works on the bundle, and the files it has passed are in the ledger. */
  ghost predicate Passed(s: System, entries: seq<Migration>) {
    forall pid | pid in s.procs ::
      && s.procs[pid].job.entries == entries
      && (Active(s.procs[pid]) ==> forall j | 0 <= j < s.procs[pid].phase.at && j < |entries| :: entries[j].name in s.db.ledger)
  }

  lemma NamesAppend(entries: seq<Migration>, m: Migration)
    ensures Names(entries + [m]) == Names(entries) + {m.name}
  {
    assert m in entries + [m] && forall e | e in entries :: e in entries + [m];
  }

  lemma NameInPrefix(entries: seq<Migration>, k: nat, j: nat)
    requires DistinctNames(entries) && k <= |entries| && j < |entries|
    ensures entries[j].name in Names(entries[..k]) <==> j < k
  {
    if j < k {
      assert entries[..k][j] in entries[..k];
    }
  }

  /** A file that is decided upon and not in the ledger is the next one in order. */
  lemma NextInOrder(db: Db, entries: seq<Migration>, at: nat)
    requires PrefixDb(db, entries) && DistinctNames(entries) && at < |entries| && entries[at].name !in db.ledger
    requires forall j | 0 <= j < at :: entries[j].name in db.ledger
    ensures |db.executed| == at
  {
    var k := |db.executed|;
    assert db.executed == entries[..k];
    NameInPrefix(entries, k, at);
    NameInPrefix(entries, k, if k < at then k else at);
  }

  lemma StepKeepsPrefixDb(s: System, e: Event, entries: seq<Migration>, hash: Hash)
    requires Exclusive(s) && PrefixDb(s.db, entries) && Passed(s, entries) && DistinctNames(entries)
    ensures PrefixDb(Next(s, e, hash).db, entries)
  {
    hide Next, Turn, AppliedRow;
    if Next(s, e, hash).db != s.db {
      EveryWriteIsATurn(s, e, hash);
      var Process(job, Deciding(at, _)) := s.procs[e.pid];
      TurnShape(s.db, job.entries[at], job.manifest, hash, job.accept);
      if entries[at].name !in s.db.ledger {
        NextInOrder(s.db, entries, at);
        NamesAppend(s.db.executed, entries[at]);
        assert s.db.executed + [entries[at]] <= entries;
      }
    }
  }

  /** A process that goes on from a file leaves it in the ledger. */
  lemma PassedFileIsThere(s: System, e: Event, hash: Hash)
    requires Exclusive(s) && e.Commit? && e.pid in s.procs && s.procs[e.pid].phase.Deciding?
    ensures var p, q := s.procs[e.pid], Next(s, e, hash).procs[e.pid];
            && p.phase.at < |p.job.entries|
            && (Active(q) ==> q.phase == Reading(p.phase.at + 1) && p.job.entries[p.phase.at].name in Next(s, e, hash).db.ledger)
  {
    hide RecordedDigest;
  }

  lemma StepKeepsPassed(s: System, e: Event, entries: seq<Migration>, hash: Hash)
    requires Exclusive(s) && Passed(s, entries) && s.db.ledger.Keys <= Next(s, e, hash).db.ledger.Keys
    requires e.Start? ==> e.job.entries == entries
    ensures Passed(Next(s, e, hash), entries)
  {
    hide Decide, AppliedRow;
    var t := Next(s, e, hash);
    forall pid | pid in t.procs
      ensures t.procs[pid].job.entries == entries
      ensures Active(t.procs[pid]) ==> forall j | 0 <= j < t.procs[pid].phase.at && j < |entries| :: entries[j].name in t.db.ledger
    {
      if pid in s.procs && e.Commit? && e.pid == pid && s.procs[pid].phase.Deciding? {
        PassedFileIsThere(s, e, hash);
      }
    }
  }

  /** From an empty ledger with one bundle, what has run is always a prefix of filename order. */
  lemma {:induction false} ExecutedIsPrefix(events: seq<Event>, entries: seq<Migration>, hash: Hash)
    requires OneBundle(events, entries) && DistinctNames(entries)
    ensures Run(map[], events, hash).db.executed <= entries
    ensures PrefixDb(Run(map[], events, hash).db, entries) && Passed(Run(map[], events, hash), entries)
  {
    if events != [] {
      hide Next;
      ExecutedIsPrefix(events[..|events| - 1], entries, hash);
      HistoryIsSound(map[], events[..|events| - 1], hash);
      var s, e := Run(map[], events[..|events| - 1], hash), events[|events| - 1];
      StepExtends(s, e, hash);
      StepKeepsPrefixDb(s, e, entries, hash);
      StepKeepsPassed(s, e, entries, hash);
    }
  }

  // ----- Strict successes -----

  /** How much of its bundle a strict process has found or made matching. */
  ghost predicate Progress(s: System, hash: Hash) {
    forall pid | pid in s.procs && !s.procs[pid].job.accept && Vouched(s.procs[pid].job.entries, s.procs[pid].job.manifest, hash) ::
      var p := s.procs[pid];
      && (Active(p) ==> p.phase.at <= |p.job.entries| && AllMatch(s.db.ledger, p.job.entries[..p.phase.at], hash))
      && (p.phase == Ended(true) ==> AllMatch(s.db.ledger, p.job.entries, hash))
  }

  lemma MatchesPersist(before: Db, after: Db, entries: seq<Migration>, hash: Hash)
    requires Extends(before, after) && AllMatch(before.ledger, entries, hash)
    ensures AllMatch(after.ledger, entries, hash)
  {
    forall m | m in entries
      ensures Matches(after.ledger, m, hash)
    {
      assert Matches(before.ledger, m, hash);
    }
  }

  lemma MatchesOneMore(ledger: Ledger, entries: seq<Migration>, at: nat, hash: Hash)
    requires at < |entries| && AllMatch(ledger, entries[..at], hash) && Matches(ledger, entries[at], hash)
    ensures AllMatch(ledger, entries[..at + 1], hash)
  {
    assert entries[..at + 1] == entries[..at] + [entries[at]];
  }

  lemma StepExtends(s: System, e: Event, hash: Hash)
    requires Exclusive(s)
    ensures Extends(s.db, Next(s, e, hash).db)
  {
    hide Next, Turn;
    if Next(s, e, hash).db != s.db {
      EveryWriteIsATurn(s, e, hash);
      var Process(job, Deciding(at, _)) := s.procs[e.pid];
      TurnExtends(s.db, job.entries[at], job.manifest, hash, job.accept);
    }
  }

  /** The process that moves, if it is strict and goes on, has just matched its file. */
  lemma MoverMatches(s: System, e: Event, hash: Hash)
    requires Exclusive(s) && e.Commit? && e.pid in s.procs && s.procs[e.pid].phase.Deciding?
    requires !s.procs[e.pid].job.accept && Vouched(s.procs[e.pid].job.entries, s.procs[e.pid].job.manifest, hash)
    ensures var p, q := s.procs[e.pid], Next(s, e, hash).procs[e.pid];
            q.job == p.job && (q.phase == Ended(false) || (q.phase == Reading(p.phase.at + 1) && p.phase.at < |p.job.entries| &&
                               Matches(Next(s, e, hash).db.ledger, p.job.entries[p.phase.at], hash)))
  {
    hide RecordedDigest, IsDigest;
    var Process(job, Deciding(at, seen)) := s.procs[e.pid];
    assert job.entries[at] in job.entries;
    RecordedForms(hash(job.entries[at].sql));
  }

  lemma StepKeepsProgress(s: System, e: Event, hash: Hash)
    requires Exclusive(s) && Progress(s, hash)
    ensures Progress(Next(s, e, hash), hash)
  {
    hide Vouched, Decide, Matches, AllMatch, Extends;
    var t := Next(s, e, hash);
    StepExtends(s, e, hash);
    forall pid | pid in t.procs && !t.procs[pid].job.accept && Vouched(t.procs[pid].job.entries, t.procs[pid].job.manifest, hash)
      ensures var p := t.procs[pid];
              && (Active(p) ==> p.phase.at <= |p.job.entries| && AllMatch(t.db.ledger, p.job.entries[..p.phase.at], hash))
              && (p.phase == Ended(true) ==> AllMatch(t.db.ledger, p.job.entries, hash))
    {
      ProcessProgress(s, e, pid, hash);
    }
  }

  lemma NothingMatches(ledger: Ledger, hash: Hash)
    ensures AllMatch(ledger, [], hash)
  {
  }

  lemma ProcessProgress(s: System, e: Event, pid: nat, hash: Hash)
    requires Exclusive(s) && Progress(s, hash) && Extends(s.db, Next(s, e, hash).db)
    requires var t := Next(s, e, hash);
             pid in t.procs && !t.procs[pid].job.accept && Vouched(t.procs[pid].job.entries, t.procs[pid].job.manifest, hash)
    ensures var t := Next(s, e, hash);
            var p := t.procs[pid];
            && (Active(p) ==> p.phase.at <= |p.job.entries| && AllMatch(t.db.ledger, p.job.entries[..p.phase.at], hash))
            && (p.phase == Ended(true) ==> AllMatch(t.db.ledger, p.job.entries, hash))
  {
    hide Vouched, Decide, Matches, AllMatch, Extends;
    var t := Next(s, e, hash);
    if pid in s.procs {
      var p := s.procs[pid];
      if Active(p) {
        MatchesPersist(s.db, t.db, p.job.entries[..p.phase.at], hash);
        if e.Commit? && e.pid == pid && p.phase.Deciding? {
          MoverMatches(s, e, hash);
          if t.procs[pid].phase.Reading? {
            MatchesOneMore(t.db.ledger, p.job.entries, p.phase.at, hash);
          }
        }
        assert p.phase.at == |p.job.entries| ==> p.job.entries[..p.phase.at] == p.job.entries;
      } else if p.phase == Ended(true) {
        MatchesPersist(s.db, t.db, p.job.entries, hash);
      } else {
        NothingMatches(t.db.ledger, hash);
      }
    }
  }

  /** What a strict migrator of a reviewed bundle has found or made matching stays so, whatever others do. */
  lemma {:induction false} StrictSuccessIsForever(ledger: Ledger, events: seq<Event>, hash: Hash)
    ensures Progress(Run(ledger, events, hash), hash)
  {
    if events != [] {
      hide Next;
      StrictSuccessIsForever(ledger, events[..|events| - 1], hash);
      HistoryIsSound(ledger, events[..|events| - 1], hash);
      StepKeepsProgress(Run(ledger, events[..|events| - 1], hash), events[|events| - 1], hash);
    }
  }

  /**
    * Once any strict migrator of a reviewed bundle has ended successfully, however many others were
    * interrupted before or run after, the verifier accepts every later ledger that names nothing foreign.
    */
  lemma VerifierAcceptsAfterSuccess(ledger: Ledger, events: seq<Event>, hash: Hash, pid: nat, b: Bundle)
    requires pid in Run(ledger, events, hash).procs
    requires Run(ledger, events, hash).procs[pid] == Process(Job(b.entries, b.manifest, false), Ended(true))
    requires Reviewed(b, hash) && Run(ledger, events, hash).db.ledger.Keys <= Names(b.entries)
    ensures Accepts(Run(ledger, events, hash).db.ledger, b, hash)
  {
    hide Run;
    StrictSuccessIsForever(ledger, events, hash);
    ReviewedIsVouched(b, hash);
    var after := Run(ledger, events, hash).db.ledger;
    forall name | name in Names(b.entries)
      ensures name in after
    {
      var m :| m in b.entries && m.name == name;
      assert Matches(after, m, hash);
    }
  }

  // ----- A migrator left alone -----

  /** The state a process that holds the lock reaches with nobody else moving, each body failing or not as `runs` says. */
  function Alone(s: System, pid: nat, hash: Hash, runs: Runs, at: nat): System
    requires pid in s.procs && s.procs[pid].phase == Reading(at) && at <= |s.procs[pid].job.entries|
    decreases |s.procs[pid].job.entries| - at
  {
    var job, read := s.procs[pid].job, Next(s, Read(pid), hash);
    if at == |job.entries| then read
    else
      var next := Next(read, Commit(pid, runs(s.db.executed, job.entries[at])), hash);
      if pid in next.procs && next.procs[pid] == Process(job, Reading(at + 1)) then Alone(next, pid, hash, runs, at + 1) else next
  }

  /** One file of a process left alone is one step of the uninterrupted run. */
  lemma AloneStep(s: System, pid: nat, hash: Hash, runs: Runs, at: nat)
    requires pid in s.procs && s.procs[pid].phase == Reading(at) && at < |s.procs[pid].job.entries|
    ensures var job, m := s.procs[pid].job, s.procs[pid].job.entries[at];
            var next := Next(Next(s, Read(pid), hash), Commit(pid, runs(s.db.executed, m)), hash);
            && pid in next.procs
            && if Stops(s.db, m, job.manifest, hash, job.accept, runs)
               then next.db == s.db && next.procs[pid] == Process(job, Ended(false))
               else next.db == Turn(s.db, m, job.manifest, hash, job.accept) && next.procs[pid] == Process(job, Reading(at + 1))
  {
    hide RecordedDigest, AppliedRow;
  }

  /** Left alone, a process does exactly what the uninterrupted run does, and ends well exactly when that does. */
  lemma {:induction false} AloneIsMigrate(s: System, pid: nat, hash: Hash, runs: Runs, at: nat)
    requires pid in s.procs && s.procs[pid].phase == Reading(at) && at <= |s.procs[pid].job.entries|
    ensures var job := s.procs[pid].job;
            var (db, error) := Migrate(s.db, job.entries[at..], job.manifest, hash, job.accept, runs);
            var final := Alone(s, pid, hash, runs, at);
            final.db == db && pid in final.procs && final.procs[pid] == Process(job, Ended(error.None?))
    decreases |s.procs[pid].job.entries| - at
  {
    var job := s.procs[pid].job;
    if at < |job.entries| {
      hide Next, Turn, Stops;
      var rest := job.entries[at..];
      assert rest[0] == job.entries[at] && rest[1..] == job.entries[at + 1..];
      AloneStep(s, pid, hash, runs, at);
      MigrateByTurns(s.db, rest, job.manifest, hash, job.accept, runs);
      var next := Next(Next(s, Read(pid), hash), Commit(pid, runs(s.db.executed, job.entries[at])), hash);
      if next.procs[pid] == Process(job, Reading(at + 1)) {
        AloneIsMigrate(next, pid, hash, runs, at + 1);
      }
    } else {
      assert job.entries[at..] == [];
    }
  }

  /** A waiting process gets the lock exactly when nobody holds it, and ending gives it back. */
  lemma LockIsHandedOn(s: System, pid: nat, hash: Hash)
    requires Exclusive(s) && pid in s.procs
    ensures s.procs[pid].phase.Waiting? ==>
              (Active(Next(s, Acquire(pid), hash).procs[pid]) <==> s.holder.None?)
    ensures Active(s.procs[pid]) ==> Next(s, Crash(pid), hash).holder.None? && Next(s, Crash(pid), hash).db == s.db
  {
  }
}
