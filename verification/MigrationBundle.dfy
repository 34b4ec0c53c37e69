/** The validated migration bundle and its reduced form (src/db.rs, src/pg_test_support.rs). */
module MigrationBundle {
  import opened Util
  import opened Manifest
  import Text

  /** The digest of migration text is an opaque function of it. */
  type Hash = string -> string

  datatype Migration = Migration(name: string, sql: string)
  datatype Bundle = Bundle(entries: seq<Migration>, manifest: map<string, string>)

  // ----- Filename order -----

  predicate Before(a: string, b: string) {
    if b == [] then false
    else if a == [] then true
    else if a[0] != b[0] then a[0] < b[0]
    else Before(a[1..], b[1..])
  }

  lemma {:induction false} BeforeIsTransitive(a: string, b: string, c: string)
    requires !Before(b, a) && !Before(c, b)
    ensures !Before(c, a)
    decreases |a|
  {
    if a != [] && c != [] && b != [] && a[0] == b[0] == c[0] {
      BeforeIsTransitive(a[1..], b[1..], c[1..]);
    }
  }

  lemma {:induction false} BeforeIsTotal(a: string, b: string)
    ensures Before(a, b) || Before(b, a) || a == b
    ensures !(Before(a, b) && Before(b, a)) && !Before(a, a)
    decreases |a|
  {
    if a != [] {
      BeforeIsTotal(a[1..], a[1..]);
      if b != [] && a[0] == b[0] {
        BeforeIsTotal(a[1..], b[1..]);
        assert a == [a[0]] + a[1..] && b == [b[0]] + b[1..];
      }
    }
  }

  /** The first difference is at `n`, where `a` has the smaller character. */
  ghost predicate SmallerAt(a: string, b: string, n: nat) {
    n < |a| && n < |b| && a[n] < b[n] && forall i | 0 <= i < n :: a[i] == b[i]
  }

  lemma SmallerInRest(a: string, b: string, n: nat)
    requires a != [] && b != [] && a[0] == b[0]
    ensures SmallerAt(a[1..], b[1..], n) <==> SmallerAt(a, b, n + 1)
    ensures !SmallerAt(a, b, 0)
  {
    if SmallerAt(a[1..], b[1..], n) {
      assert forall i | 0 < i < n + 1 :: a[i] == a[1..][i - 1] && b[i] == b[1..][i - 1];
    }
    if SmallerAt(a, b, n + 1) {
      assert forall i | 0 <= i < n :: a[1..][i] == a[i + 1] && b[1..][i] == b[i + 1];
    }
  }

  /** Filename order is character order: a proper prefix first, else by the first character that differs. */
  lemma {:induction false} BeforeIsLexicographic(a: string, b: string)
    ensures Before(a, b) <==> a < b || exists n :: SmallerAt(a, b, n)
    decreases |a|
  {
    if a == [] || b == [] {
      assert forall n :: !SmallerAt(a, b, n);
    } else if a[0] != b[0] {
      assert SmallerAt(a, b, 0) <==> a[0] < b[0];
      assert forall n: nat | n > 0 :: !SmallerAt(a, b, n);
    } else {
      hide SmallerAt;
      BeforeIsLexicographic(a[1..], b[1..]);
      assert a == [a[0]] + a[1..] && b == [b[0]] + b[1..];
      SmallerInRest(a, b, 0);
      if n :| SmallerAt(a[1..], b[1..], n) {
        SmallerInRest(a, b, n);
      }
      if n: nat :| SmallerAt(a, b, n) {
        if n > 0 {
          SmallerInRest(a, b, n - 1);
        }
      }
    }
  }

  ghost predicate InOrder(entries: seq<Migration>) {
    forall i, j | 0 <= i < j < |entries| :: !Before(entries[j].name, entries[i].name)
  }

  function Inserted(sorted: seq<Migration>, e: Migration): seq<Migration> {
    if sorted == [] || !Before(e.name, sorted[|sorted| - 1].name) then sorted + [e]
    else Inserted(sorted[..|sorted| - 1], e) + [sorted[|sorted| - 1]]
  }

  /** A stable sort by name. */
  function SortByName(entries: seq<Migration>): seq<Migration> {
    if entries == [] then [] else Inserted(SortByName(entries[..|entries| - 1]), entries[|entries| - 1])
  }

  lemma {:induction false} InsertedElements(sorted: seq<Migration>, e: Migration)
    ensures multiset(Inserted(sorted, e)) == multiset(sorted) + multiset{e}
    ensures forall x :: x in Inserted(sorted, e) <==> x in sorted || x == e
  {
    if sorted != [] {
      var before, last := sorted[..|sorted| - 1], sorted[|sorted| - 1];
      assert sorted == before + [last];
      if Before(e.name, last.name) {
        InsertedElements(before, e);
      }
    }
  }

  lemma InOrderOnLast(before: seq<Migration>, last: Migration)
    requires InOrder(before) && forall x | x in before :: !Before(last.name, x.name)
    ensures InOrder(before + [last])
  {
    var all := before + [last];
    forall i, j | 0 <= i < j < |all|
      ensures !Before(all[j].name, all[i].name)
    {
      assert all[i] == before[i] && before[i] in before;
    }
  }

  lemma LastIsGreatest(sorted: seq<Migration>, x: Migration)
    requires InOrder(sorted) && x in sorted
    ensures !Before(sorted[|sorted| - 1].name, x.name)
  {
    var i :| 0 <= i < |sorted| && sorted[i] == x;
    BeforeIsTotal(x.name, x.name);
  }

  lemma {:induction false} InsertedIsInOrder(sorted: seq<Migration>, e: Migration)
    requires InOrder(sorted)
    ensures InOrder(Inserted(sorted, e))
  {
    hide Before;
    if sorted != [] {
      var before, last := sorted[..|sorted| - 1], sorted[|sorted| - 1];
      if Before(e.name, last.name) {
        InsertedIsInOrder(before, e);
        InsertedElements(before, e);
        BeforeIsTotal(e.name, last.name);
        forall x | x in Inserted(before, e)
          ensures !Before(last.name, x.name)
        {
          if x != e {
            LastIsGreatest(sorted, x);
          }
        }
        InOrderOnLast(Inserted(before, e), last);
      } else {
        forall x | x in sorted
          ensures !Before(e.name, x.name)
        {
          LastIsGreatest(sorted, x);
          BeforeIsTransitive(x.name, last.name, e.name);
        }
        InOrderOnLast(sorted, e);
      }
    }
  }

  lemma {:induction false} SortIsSorted(entries: seq<Migration>)
    ensures InOrder(SortByName(entries)) && multiset(SortByName(entries)) == multiset(entries)
    ensures forall e :: e in SortByName(entries) <==> e in entries
  {
    hide InOrder, Inserted;
    if entries == [] {
      NothingToSort();
    } else {
      var before, last := entries[..|entries| - 1], entries[|entries| - 1];
      SortIsSorted(before);
      InsertedIsInOrder(SortByName(before), last);
      InsertedElements(SortByName(before), last);
      assert entries == before + [last];
    }
  }

  lemma NothingToSort()
    ensures InOrder([])
  {
  }

  // ----- Validation -----

  datatype BuildError = BadManifest(e: ParseError) | Unlisted(names: set<string>) | Absent(names: set<string>) | WrongBytes(name: string)

  function Names(entries: seq<Migration>): set<string> {
    set e | e in entries :: e.name
  }

  function FirstWrong(entries: seq<Migration>, manifest: map<string, string>, hash: Hash): Option<string>
    requires Names(entries) <= manifest.Keys
  {
    if entries == [] then None
    else
      assert entries[0] in entries;
      if hash(entries[0].sql) != manifest[entries[0].name] then Some(entries[0].name)
      else
        assert forall e | e in entries[1..] :: e in entries;
        FirstWrong(entries[1..], manifest, hash)
  }

  function Built(entries: seq<Migration>, manifestBody: string, hash: Hash): Result<Bundle, BuildError> {
    match Parse(manifestBody)
    case Failure(e) => Failure(BadManifest(e))
    case Success(manifest) =>
      var sorted := SortByName(entries);
      var present, listed := Names(sorted), manifest.Keys;
      if present - listed != {} then Failure(Unlisted(present - listed))
      else if listed - present != {} then Failure(Absent(listed - present))
      else
        assert present <= listed by { assert present - listed == {}; }
        match FirstWrong(sorted, manifest, hash)
        case Some(name) => Failure(WrongBytes(name))
        case None => Success(Bundle(sorted, manifest))
  }

  method Build(entries: seq<Migration>, manifestBody: string, hash: Hash) returns (r: Result<Bundle, BuildError>)
    ensures r == Built(entries, manifestBody, hash)
  {
    var sorted := SortByName(entries);
    var parsed := ParseMigrationManifest(manifestBody);
    if parsed.Failure? {
      return Failure(BadManifest(parsed.error));
    }
    var manifest := parsed.value;
    var present, listed := Names(sorted), manifest.Keys;
    if present - listed != {} {
      return Failure(Unlisted(present - listed));
    }
    if listed - present != {} {
      return Failure(Absent(listed - present));
    }
    assert present <= listed by { assert present - listed == {}; }
    var i := 0;
    while i < |sorted|
      invariant i <= |sorted| && Names(sorted[i..]) <= manifest.Keys
      invariant FirstWrong(sorted[i..], manifest, hash) == FirstWrong(sorted, manifest, hash)
    {
      assert sorted[i] in sorted[i..] && sorted[i..][1..] == sorted[i + 1..];
      assert forall e | e in sorted[i + 1..] :: e in sorted[i..];
      if hash(sorted[i].sql) != manifest[sorted[i].name] {
        return Failure(WrongBytes(sorted[i].name));
      }
      i := i + 1;
    }
    r := Success(Bundle(sorted, manifest));
  }

  ghost predicate DistinctNames(entries: seq<Migration>) {
    forall i, j | 0 <= i < j < |entries| :: entries[i].name != entries[j].name
  }

  /** The bundle is in filename order and its manifest vouches for every byte of it. */
  ghost predicate Reviewed(b: Bundle, hash: Hash) {
    && InOrder(b.entries)
    && Names(b.entries) == b.manifest.Keys
    && forall e | e in b.entries :: b.manifest[e.name] == hash(e.sql) && IsDigest(hash(e.sql))
  }

  lemma {:induction false} NoWrongBytes(entries: seq<Migration>, manifest: map<string, string>, hash: Hash)
    requires Names(entries) <= manifest.Keys
    ensures FirstWrong(entries, manifest, hash).None? <==> forall e | e in entries :: manifest[e.name] == hash(e.sql)
  {
    if entries != [] {
      assert entries[0] in entries && forall e | e in entries[1..] :: e in entries;
      NoWrongBytes(entries[1..], manifest, hash);
      assert forall e | e in entries :: e == entries[0] || e in entries[1..];
    }
  }

  lemma ParsedDigests(body: string)
    requires Parse(body).Success?
    ensures forall name | name in Parse(body).value :: IsDigest(Parse(body).value[name])
  {
    hide Classify;
    var lines, manifest := Text.Lines(body), Parse(body).value;
    ParserIsStrict(lines);
    forall name | name in manifest
      ensures IsDigest(manifest[name])
    {
      assert Records(manifest, name, manifest[name]);
      var i :| 0 <= i < |lines| && Classify(lines[i]) == Entry(name, manifest[name]);
      EntryDigest(lines[i]);
    }
  }

  /**
    * A candidate is accepted exactly when its manifest parses, lists precisely the files present and
    * vouches for the digest of each; the accepted bundle is then the same files in filename order.
    */
  lemma BuildAcceptsReviewed(entries: seq<Migration>, body: string, hash: Hash)
    ensures Built(entries, body, hash).Success? <==>
              && Parse(body).Success? && Names(entries) == Parse(body).value.Keys
              && forall e | e in entries :: Parse(body).value[e.name] == hash(e.sql)
    ensures Built(entries, body, hash).Success? ==>
              var b := Built(entries, body, hash).value;
              && Reviewed(b, hash) && multiset(b.entries) == multiset(entries) && b.manifest == Parse(body).value
  {
    SortIsSorted(entries);
    assert Names(SortByName(entries)) == Names(entries);
    if Parse(body).Success? && Names(entries) == Parse(body).value.Keys {
      NoWrongBytes(SortByName(entries), Parse(body).value, hash);
      ParsedDigests(body);
      assert forall e | e in entries :: e.name in Names(entries);
    }
  }

  /** A file whose digest is not the reviewed one. */
  ghost predicate Tampered(e: Migration, manifest: map<string, string>, hash: Hash) {
    e.name in manifest && manifest[e.name] != hash(e.sql)
  }

  lemma {:induction false} FirstWrongIsFirst(entries: seq<Migration>, manifest: map<string, string>, hash: Hash, name: string)
    requires Names(entries) <= manifest.Keys && FirstWrong(entries, manifest, hash) == Some(name)
    ensures exists i :: 0 <= i < |entries| && entries[i].name == name && Tampered(entries[i], manifest, hash) &&
                        forall j | 0 <= j < i :: !Tampered(entries[j], manifest, hash)
  {
    assert entries[0] in entries && forall e | e in entries[1..] :: e in entries;
    if hash(entries[0].sql) != manifest[entries[0].name] {
      assert Tampered(entries[0], manifest, hash);
    } else {
      FirstWrongIsFirst(entries[1..], manifest, hash, name);
      var i :| 0 <= i < |entries| - 1 && entries[1..][i].name == name && Tampered(entries[1..][i], manifest, hash) &&
               forall j | 0 <= j < i :: !Tampered(entries[1..][j], manifest, hash);
      forall j | 0 <= j < i + 1
        ensures !Tampered(entries[j], manifest, hash)
      {
        assert j > 0 ==> entries[j] == entries[1..][j - 1];
      }
      assert entries[i + 1] == entries[1..][i];
    }
  }

  /**
    * Why a candidate is refused: its manifest does not parse; else files it does not list, all of them named;
    * else listed files that are absent; else the first file in filename order with other bytes.
    */
  lemma RefusalIsExplained(entries: seq<Migration>, body: string, hash: Hash)
    requires Built(entries, body, hash).Failure?
    ensures match Built(entries, body, hash).error
            case BadManifest(e) => Parse(body) == Failure(e)
            case Unlisted(names) => Parse(body).Success? && names == Names(entries) - Parse(body).value.Keys != {}
            case Absent(names) =>
              Parse(body).Success? && Names(entries) <= Parse(body).value.Keys && names == Parse(body).value.Keys - Names(entries) != {}
            case WrongBytes(name) =>
              && Parse(body).Success? && Names(entries) == Parse(body).value.Keys
              && exists e :: e in entries && e.name == name && Tampered(e, Parse(body).value, hash) &&
                             forall d | d in entries && Tampered(d, Parse(body).value, hash) :: !Before(d.name, name)
  {
    hide FirstWrong, Before, SortByName, Names, Tampered;
    SortIsSorted(entries);
    var sorted := SortByName(entries);
    SameNames(sorted, entries);
    if Parse(body).Success? && Names(sorted) - Parse(body).value.Keys == {} {
      forall name | name in Names(sorted)
        ensures name in Parse(body).value.Keys
      {
        assert name !in Names(sorted) - Parse(body).value.Keys;
      }
    }
    if Parse(body).Success? && Built(entries, body, hash).error.WrongBytes? {
      var manifest, name := Parse(body).value, Built(entries, body, hash).error.name;
      assert Names(sorted) - manifest.Keys == {} && manifest.Keys - Names(sorted) == {};
      FirstTampered(sorted, manifest, hash, name);
    }
  }

  lemma SameNames(a: seq<Migration>, b: seq<Migration>)
    requires forall e :: e in a <==> e in b
    ensures Names(a) == Names(b)
  {
  }

  lemma FirstTampered(sorted: seq<Migration>, manifest: map<string, string>, hash: Hash, name: string)
    requires InOrder(sorted) && Names(sorted) <= manifest.Keys && FirstWrong(sorted, manifest, hash) == Some(name)
    ensures exists e :: e in sorted && e.name == name && Tampered(e, manifest, hash) &&
                        forall d | d in sorted && Tampered(d, manifest, hash) :: !Before(d.name, name)
  {
    hide FirstWrong, Before, Names, Tampered;
    FirstWrongIsFirst(sorted, manifest, hash, name);
    var i :| 0 <= i < |sorted| && sorted[i].name == name && Tampered(sorted[i], manifest, hash) &&
             forall j | 0 <= j < i :: !Tampered(sorted[j], manifest, hash);
    forall d | d in sorted && Tampered(d, manifest, hash)
      ensures !Before(d.name, name)
    {
      var j :| 0 <= j < |sorted| && sorted[j] == d;
      BeforeIsTotal(name, name);
    }
  }

  lemma {:induction false} DistinctNamesCount(entries: seq<Migration>)
    requires DistinctNames(entries)
    ensures |Names(entries)| == |entries|
  {
    if entries != [] {
      var before, last := entries[..|entries| - 1], entries[|entries| - 1];
      DistinctNamesCount(before);
      assert entries == before + [last];
      assert Names(entries) == Names(before) + {last.name};
    }
  }

  /** With no file read twice the correspondence is one to one. */
  lemma AcceptedIsBijection(entries: seq<Migration>, body: string, hash: Hash)
    requires DistinctNames(entries) && Built(entries, body, hash).Success?
    ensures |entries| == |Parse(body).value|
  {
    BuildAcceptsReviewed(entries, body, hash);
    DistinctNamesCount(entries);
  }

  // ----- Reduced bundles -----

  function KeptBefore(entries: seq<Migration>, cutoff: string): seq<Migration> {
    if entries == [] then []
    else
      var before := KeptBefore(entries[..|entries| - 1], cutoff);
      if Before(entries[|entries| - 1].name, cutoff) then before + [entries[|entries| - 1]] else before
  }

  method ReduceBundle(entries: seq<Migration>, manifestBody: string, cutoff: string)
    returns (reduced: seq<Migration>, reducedBody: string)
    ensures reduced == KeptBefore(entries, cutoff)
    ensures reducedBody == ReducedManifest(manifestBody, Names(KeptBefore(entries, cutoff)))
  {
    reduced := [];
    var kept: set<string> := {};
    for i := 0 to |entries|
      invariant reduced == KeptBefore(entries[..i], cutoff) && kept == Names(reduced)
    {
      assert entries[..i + 1][..i] == entries[..i];
      if Before(entries[i].name, cutoff) {
        kept := kept + {entries[i].name};
        reduced := reduced + [entries[i]];
      }
    }
    assert entries[..|entries|] == entries;
    reducedBody := WriteReducedManifest(manifestBody, kept);
  }

  lemma {:induction false} KeptBeforeContents(entries: seq<Migration>, cutoff: string)
    ensures forall e :: e in KeptBefore(entries, cutoff) <==> e in entries && Before(e.name, cutoff)
  {
    if entries != [] {
      KeptBeforeContents(entries[..|entries| - 1], cutoff);
      assert entries == entries[..|entries| - 1] + [entries[|entries| - 1]];
    }
  }

  lemma KeptAppend(entries: seq<Migration>, last: Migration, cutoff: string)
    ensures KeptBefore(entries + [last], cutoff) ==
            if Before(last.name, cutoff) then KeptBefore(entries, cutoff) + [last] else KeptBefore(entries, cutoff)
  {
    assert (entries + [last])[..|entries|] == entries;
  }

  lemma InsertedAtEnd(sorted: seq<Migration>, e: Migration)
    requires forall x | x in sorted :: !Before(e.name, x.name)
    ensures Inserted(sorted, e) == sorted + [e]
  {
  }

  lemma InsertedEarlier(before: seq<Migration>, last: Migration, e: Migration)
    requires Before(e.name, last.name)
    ensures Inserted(before + [last], e) == Inserted(before, e) + [last]
  {
    assert (before + [last])[..|before|] == before;
  }

  lemma {:induction false} KeptOfInserted(sorted: seq<Migration>, e: Migration, cutoff: string)
    requires InOrder(sorted)
    ensures KeptBefore(Inserted(sorted, e), cutoff) ==
            if Before(e.name, cutoff) then Inserted(KeptBefore(sorted, cutoff), e) else KeptBefore(sorted, cutoff)
  {
    hide Before, KeptBefore, Inserted;
    if sorted != [] && Before(e.name, sorted[|sorted| - 1].name) {
      var before, last := sorted[..|sorted| - 1], sorted[|sorted| - 1];
      assert sorted == before + [last];
      KeptOfInserted(before, e, cutoff);
      InsertedEarlier(before, last, e);
      KeptAppend(Inserted(before, e), last, cutoff);
      KeptAppend(before, last, cutoff);
      InsertedEarlier(KeptBefore(before, cutoff), last, e);
    } else {
      forall x | x in sorted
        ensures !Before(e.name, x.name)
      {
        LastIsGreatest(sorted, x);
        BeforeIsTransitive(x.name, sorted[|sorted| - 1].name, e.name);
      }
      KeptBeforeContents(sorted, cutoff);
      InsertedAtEnd(sorted, e);
      InsertedAtEnd(KeptBefore(sorted, cutoff), e);
      KeptAppend(sorted, e, cutoff);
    }
  }

  lemma {:induction false} SortOfKept(entries: seq<Migration>, cutoff: string)
    ensures SortByName(KeptBefore(entries, cutoff)) == KeptBefore(SortByName(entries), cutoff)
  {
    if entries != [] {
      var before, last := entries[..|entries| - 1], entries[|entries| - 1];
      SortOfKept(before, cutoff);
      SortIsSorted(before);
      KeptOfInserted(SortByName(before), last, cutoff);
      var kept := KeptBefore(before, cutoff);
      assert (kept + [last])[..|kept|] == kept;
    }
  }

  lemma {:induction false} KeptIsPrefix(sorted: seq<Migration>, cutoff: string)
    requires InOrder(sorted)
    ensures KeptBefore(sorted, cutoff) <= sorted
  {
    if sorted != [] {
      var before, last := sorted[..|sorted| - 1], sorted[|sorted| - 1];
      KeptIsPrefix(before, cutoff);
      if Before(last.name, cutoff) {
        forall e | e in before
          ensures Before(e.name, cutoff)
        {
          var i :| 0 <= i < |before| && before[i] == e;
          assert !Before(sorted[|sorted| - 1].name, sorted[i].name);
          BeforeChains(e.name, last.name, cutoff);
        }
        KeptEverything(before, cutoff);
        assert sorted == before + [last];
      }
    }
  }

  lemma BeforeChains(a: string, b: string, c: string)
    requires !Before(b, a) && Before(b, c)
    ensures Before(a, c)
  {
    if !Before(a, c) {
      BeforeIsTotal(b, c);
      BeforeIsTransitive(c, a, b);
    }
  }

  lemma {:induction false} KeptEverything(entries: seq<Migration>, cutoff: string)
    requires forall e | e in entries :: Before(e.name, cutoff)
    ensures KeptBefore(entries, cutoff) == entries
  {
    hide Before;
    if entries != [] {
      KeptEverything(entries[..|entries| - 1], cutoff);
    }
  }

  /**
    * Reducing an accepted bundle gives an accepted one: a prefix of the full bundle in filename
    * order, with exactly the corresponding part of the reviewed manifest.
    */
  lemma ReducedBundleIsAccepted(entries: seq<Migration>, body: string, hash: Hash, cutoff: string)
    requires Built(entries, body, hash).Success?
    ensures var kept := KeptBefore(entries, cutoff);
            var full, reduced := Built(entries, body, hash).value, Built(kept, ReducedManifest(body, Names(kept)), hash);
            && reduced.Success?
            && reduced.value.entries <= full.entries
            && reduced.value.entries == KeptBefore(full.entries, cutoff)
            && reduced.value.manifest == Restrict(full.manifest, Names(kept))
  {
    BuildAcceptsReviewed(entries, body, hash);
    var kept := KeptBefore(entries, cutoff);
    var manifest := Parse(body).value;
    KeptBeforeContents(entries, cutoff);
    ReducedManifestParses(body, Names(kept));
    forall name | name in Names(kept)
      ensures name in Names(entries)
    {
      var e :| e in kept && e.name == name;
      assert e in entries;
    }
    assert Restrict(manifest, Names(kept)).Keys == Names(kept);
    BuildAcceptsReviewed(kept, ReducedManifest(body, Names(kept)), hash);
    SortOfKept(entries, cutoff);
    SortIsSorted(entries);
    KeptIsPrefix(SortByName(entries), cutoff);
  }
}
