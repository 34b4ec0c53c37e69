/** The reviewed digest manifest (src/db.rs): a strict parser and the text it reads. */
module Manifest {
  import opened Util
  import opened Text

  datatype ParseError = FieldCount(line: nat) | BadDigest(line: nat) | NotSql(line: nat) | Duplicate(name: string, line: nat)

  predicate IsHexDigit(c: char) {
    '0' <= c <= '9' || 'a' <= c <= 'f' || 'A' <= c <= 'F'
  }

  predicate IsDigest(s: string) {
    |s| == 64 && forall c | c in s :: IsHexDigit(c)
  }

  predicate EndsWithSql(name: string) {
    |name| >= 4 && name[|name| - 4..] == ".sql"
  }

  datatype Line = Ignored | Entry(name: string, digest: string) | Malformed

  /** What the parser makes of one line on its own. */
  function Classify(raw: string): Line {
    var line := Trim(TrimEndCr(raw));
    if line == [] || line[0] == '#' then Ignored
    else
      var fields := Words(line);
      if |fields| != 2 then Malformed
      else if !IsDigest(fields[0]) then Malformed
      else if !EndsWithSql(fields[1]) then Malformed
      else Entry(fields[1], Lowercase(fields[0]))
  }

  function ErrorAt(raw: string, lineno: nat): ParseError {
    var fields := Words(Trim(TrimEndCr(raw)));
    if |fields| != 2 then FieldCount(lineno) else if !IsDigest(fields[0]) then BadDigest(lineno) else NotSql(lineno)
  }

  function ParseLines(lines: seq<string>): Result<map<string, string>, ParseError> {
    if lines == [] then Success(map[])
    else
      match ParseLines(lines[..|lines| - 1])
      case Failure(e) => Failure(e)
      case Success(recorded) =>
        match Classify(lines[|lines| - 1])
        case Ignored => Success(recorded)
        case Malformed => Failure(ErrorAt(lines[|lines| - 1], |lines|))
        case Entry(name, digest) =>
          if name in recorded then Failure(Duplicate(name, |lines|)) else Success(recorded[name := digest])
  }

  function Parse(body: string): Result<map<string, string>, ParseError> {
    ParseLines(Lines(body))
  }

  method ParseMigrationManifest(body: string) returns (r: Result<map<string, string>, ParseError>)
    ensures r == Parse(body)
  {
    var lines := Lines(body);
    var recorded: map<string, string> := map[];
    for idx := 0 to |lines|
      invariant ParseLines(lines[..idx]) == Success(recorded)
    {
      var upTo := lines[..idx + 1];
      assert upTo[..idx] == lines[..idx];
      var line := Trim(TrimEndCr(lines[idx]));
      if line == [] || line[0] == '#' {
        continue;
      }
      var fields := Words(line);
      if |fields| != 2 {
        FirstErrorStands(lines, idx + 1);
        return Failure(FieldCount(idx + 1));
      }
      if !IsDigest(fields[0]) {
        FirstErrorStands(lines, idx + 1);
        return Failure(BadDigest(idx + 1));
      }
      if !EndsWithSql(fields[1]) {
        FirstErrorStands(lines, idx + 1);
        return Failure(NotSql(idx + 1));
      }
      if fields[1] in recorded {
        FirstErrorStands(lines, idx + 1);
        return Failure(Duplicate(fields[1], idx + 1));
      }
      recorded := recorded[fields[1] := Lowercase(fields[0])];
    }
    assert lines[..|lines|] == lines;
    r := Success(recorded);
  }

  lemma {:induction false} FirstErrorStands(lines: seq<string>, i: nat)
    requires i <= |lines| && ParseLines(lines[..i]).Failure?
    ensures ParseLines(lines) == ParseLines(lines[..i])
    decreases |lines|
  {
    if i == |lines| {
      assert lines[..i] == lines;
    } else {
      assert lines[..|lines| - 1][..i] == lines[..i];
      FirstErrorStands(lines[..|lines| - 1], i);
    }
  }

  // ----- What the parser accepts -----

  ghost predicate Listed(lines: seq<string>, name: string, digest: string) {
    exists i :: 0 <= i < |lines| && Classify(lines[i]) == Entry(name, digest)
  }

  ghost predicate Records(manifest: map<string, string>, name: string, digest: string) {
    name in manifest && manifest[name] == digest
  }

  /** No line is malformed and no name is listed on two lines. */
  ghost predicate Strict(lines: seq<string>) {
    && (forall i | 0 <= i < |lines| :: !Classify(lines[i]).Malformed?)
    && (forall i, j | 0 <= i < j < |lines| && Classify(lines[i]).Entry? && Classify(lines[j]).Entry? ::
          Classify(lines[i]).name != Classify(lines[j]).name)
  }

  lemma ListedOnLast(before: seq<string>, last: string, name: string, digest: string)
    ensures Listed(before + [last], name, digest) <==>
            Listed(before, name, digest) || Classify(last) == Entry(name, digest)
  {
    hide Classify;
    var lines := before + [last];
    assert forall i | 0 <= i < |before| :: lines[i] == before[i];
    if Classify(last) == Entry(name, digest) {
      assert Classify(lines[|before|]) == Entry(name, digest);
    } else if Listed(before, name, digest) {
      var i :| 0 <= i < |before| && Classify(before[i]) == Entry(name, digest);
      assert Classify(lines[i]) == Entry(name, digest);
    }
  }

  lemma StrictOnLast(before: seq<string>, last: string)
    ensures Strict(before + [last]) <==>
            && Strict(before) && !Classify(last).Malformed?
            && (Classify(last).Entry? ==> forall digest :: !Listed(before, Classify(last).name, digest))
  {
    hide Classify;
    var lines := before + [last];
    assert forall i | 0 <= i < |before| :: lines[i] == before[i];
    assert lines[|before|] == last;
    if Strict(lines) && Classify(last).Entry? {
      forall i | 0 <= i < |before| && Classify(before[i]).Entry?
        ensures Classify(before[i]).name != Classify(last).name
      {
        assert Classify(lines[i]).name != Classify(lines[|before|]).name;
      }
    }
    if Strict(before) && Classify(last).Entry? && forall digest :: !Listed(before, Classify(last).name, digest) {
      forall i | 0 <= i < |before| && Classify(before[i]).Entry?
        ensures Classify(before[i]).name != Classify(last).name
      {
        assert !Listed(before, Classify(last).name, Classify(before[i]).digest);
      }
    }
  }

  /** The parser accepts exactly the strict texts, and returns exactly what their lines list. */
  lemma {:induction false} ParserIsStrict(lines: seq<string>)
    ensures ParseLines(lines).Success? <==> Strict(lines)
    ensures ParseLines(lines).Success? ==>
              forall name, digest :: Records(ParseLines(lines).value, name, digest) <==> Listed(lines, name, digest)
  {
    hide Classify, ErrorAt, Strict, Listed;
    if lines == [] {
      NothingListed();
    } else {
      var before, last := lines[..|lines| - 1], lines[|lines| - 1];
      assert lines == before + [last];
      ParserIsStrict(before);
      StrictOnLast(before, last);
      forall name, digest {
        ListedOnLast(before, last, name, digest);
      }
      if ParseLines(before).Success? && Classify(last).Entry? {
        var recorded := ParseLines(before).value;
        assert Classify(last).name in recorded ==> Records(recorded, Classify(last).name, recorded[Classify(last).name]);
      }
    }
  }

  lemma NothingListed()
    ensures Strict([]) && forall name, digest :: !Listed([], name, digest)
  {
  }

  /** What a line with these words is, spelled out; a recorded digest is in lower case. */
  ghost predicate ReadsAs(line: Line, words: seq<string>) {
    match line
    case Ignored => words == [] || (words[0] != [] && words[0][0] == '#')
    case Entry(name, digest) =>
      && |words| == 2 && name == words[1] && |name| >= 4 && name[|name| - 4..] == ".sql"
      && |words[0]| == |digest| == 64 && (forall i | 0 <= i < 64 :: SameLetter(words[0][i], digest[i]))
      && (forall c | c in digest :: '0' <= c <= '9' || 'a' <= c <= 'f')
    case Malformed => words != [] && (words[0] == [] || words[0][0] != '#') && !(|words| == 2 && Wellformed(words[0], words[1]))
  }

  ghost predicate Wellformed(digest: string, name: string) {
    && |digest| == 64 && (forall c | c in digest :: '0' <= c <= '9' || 'a' <= c <= 'f' || 'A' <= c <= 'F')
    && |name| >= 4 && name[|name| - 4..] == ".sql"
  }

  /** The same character, or a capital letter and its small one. */
  predicate SameLetter(c: char, lower: char) {
    c == lower || ('A' <= c <= 'F' && lower as int == c as int + 32)
  }

  lemma LineIsRead(raw: string)
    ensures ReadsAs(Classify(raw), Text.Words(raw))
  {
    hide Text.Words, Text.Trim, Text.TrimEndCr, Text.Lowercase;
    TrimKeepsWords(raw);
    var words := Text.Words(raw);
    if Classify(raw).Entry? {
      var digest := Text.Lowercase(words[0]);
      forall i | 0 <= i < 64
        ensures SameLetter(words[0][i], digest[i]) && ('0' <= digest[i] <= '9' || 'a' <= digest[i] <= 'f')
      {
        assert words[0][i] in words[0];
      }
    }
  }

  function LineOf(e: ParseError): nat {
    match e
    case FieldCount(n) => n
    case BadDigest(n) => n
    case NotSql(n) => n
    case Duplicate(_, n) => n
  }

  /**
    * A refused text is refused at its first fault: every line before is fine and lists no name twice, and the
    * error says what is wrong with this one, numbered from one.
    */
  lemma {:induction false} ErrorIsFirstFault(lines: seq<string>)
    requires ParseLines(lines).Failure?
    ensures var e := ParseLines(lines).error;
            && 1 <= LineOf(e) <= |lines| && ParseLines(lines[..LineOf(e) - 1]).Success?
            && var words := Text.Words(lines[LineOf(e) - 1]);
               match e
               case FieldCount(_) => |words| != 2 && words != [] && (words[0] == [] || words[0][0] != '#')
               case BadDigest(_) => |words| == 2 && !IsDigest(words[0])
               case NotSql(_) => |words| == 2 && IsDigest(words[0]) && !EndsWithSql(words[1])
               case Duplicate(name, _) =>
                 && |words| == 2 && Wellformed(words[0], words[1]) && name == words[1]
                 && name in ParseLines(lines[..LineOf(e) - 1]).value
    decreases |lines|
  {
    hide Text.Words, Text.Trim, Text.TrimEndCr, Text.Lowercase, IsDigest;
    var before, last := lines[..|lines| - 1], lines[|lines| - 1];
    if ParseLines(before).Failure? {
      ErrorIsFirstFault(before);
      var n := LineOf(ParseLines(before).error);
      assert before[..n - 1] == lines[..n - 1] && before[n - 1] == lines[n - 1];
    } else {
      TrimKeepsWords(last);
      if Classify(last).Entry? {
        DigestIsWellformed(last);
      }
    }
  }

  lemma DigestIsWellformed(raw: string)
    requires Classify(raw).Entry?
    ensures |Text.Words(raw)| == 2 && Wellformed(Text.Words(raw)[0], Text.Words(raw)[1])
  {
    TrimKeepsWords(raw);
  }

  // ----- Round trip -----

  function RenderLine(name: string, digest: string): string {
    digest + "  " + name
  }

  function Render(entries: seq<(string, string)>): string {
    if entries == [] then [] else RenderLine(entries[0].0, entries[0].1) + "\n" + Render(entries[1..])
  }

  predicate Renderable(name: string, digest: string) {
    EndsWithSql(name) && NoWhitespace(name) && IsDigest(digest) && forall c | c in digest :: Lower(c) == c
  }

  lemma ClassifyByWords(a: string, b: string)
    requires Words(a) == Words(b)
    ensures Classify(a) == Classify(b)
  {
    TrimKeepsWords(a);
    TrimKeepsWords(b);
  }

  lemma RenderedLineWords(name: string, digest: string)
    requires Renderable(name, digest)
    ensures Words(RenderLine(name, digest)) == [digest, name]
  {
    hide IsWhitespace, IsDigest, Words;
    SpaceAndHex(digest);
    FirstWord(digest, [' '] + ([' '] + name));
    LeadingSpace(' ', [' '] + name);
    LeadingSpace(' ', name);
    FirstWord(name, []);
    NoWords();
    assert name + [] == name;
    assert RenderLine(name, digest) == digest + ([' '] + ([' '] + name));
  }

  lemma SpaceAndHex(digest: string)
    requires IsDigest(digest)
    ensures digest != [] && NoWhitespace(digest) && IsWhitespace(' ')
  {
    assert forall c | c in digest :: IsHexDigit(c);
  }

  lemma RenderedLineIsEntry(name: string, digest: string)
    requires Renderable(name, digest)
    ensures Classify(RenderLine(name, digest)) == Entry(name, digest)
  {
    hide Words, Trim, TrimEndCr, IsWhitespace;
    RenderedLineWords(name, digest);
    TrimKeepsWords(RenderLine(name, digest));
    assert digest[0] in digest;
    LowercaseIsIdentity(digest);
  }

  lemma RenderedLineIsOneLine(name: string, digest: string)
    requires Renderable(name, digest)
    ensures '\n' !in RenderLine(name, digest) && WithoutCr(RenderLine(name, digest)) == RenderLine(name, digest)
  {
    var line := RenderLine(name, digest);
    assert IsWhitespace('\n') && IsWhitespace('\r');
    forall c | c in line
      ensures c != '\n'
    {
      assert c in digest || c == ' ' || c in name;
    }
    assert line[|line| - 1] == name[|name| - 1] && name[|name| - 1] in name;
  }

  lemma {:induction false} RenderedLines(entries: seq<(string, string)>)
    requires forall e | e in entries :: Renderable(e.0, e.1)
    ensures |Lines(Render(entries))| == |entries|
    ensures forall i | 0 <= i < |entries| :: Classify(Lines(Render(entries))[i]) == Entry(entries[i].0, entries[i].1)
  {
    hide Classify, Renderable, RenderLine;
    if entries != [] {
      RenderedLines(entries[1..]);
      RenderedLineIsEntry(entries[0].0, entries[0].1);
      RenderedLineIsOneLine(entries[0].0, entries[0].1);
      FirstLine(RenderLine(entries[0].0, entries[0].1), Render(entries[1..]));
    }
  }

  /** Rendering any map, in any order of its entries, and parsing the text gives the map back. */
  lemma RoundTrip(manifest: map<string, string>, entries: seq<(string, string)>)
    requires forall name | name in manifest :: Renderable(name, manifest[name])
    requires forall e | e in entries :: e.0 in manifest && manifest[e.0] == e.1
    requires forall name | name in manifest :: (name, manifest[name]) in entries
    requires forall i, j | 0 <= i < j < |entries| :: entries[i].0 != entries[j].0
    ensures Parse(Render(entries)) == Success(manifest)
  {
    hide Classify, Renderable, Render;
    RenderedLines(entries);
    var lines := Lines(Render(entries));
    ParserIsStrict(lines);
    assert Strict(lines);
    var parsed := ParseLines(lines).value;
    forall name, digest
      ensures Listed(lines, name, digest) <==> Records(manifest, name, digest)
    {
      if Listed(lines, name, digest) {
        var i :| 0 <= i < |lines| && Classify(lines[i]) == Entry(name, digest);
        assert entries[i] in entries;
      }
      if Records(manifest, name, digest) {
        var i :| 0 <= i < |entries| && entries[i] == (name, digest);
        assert Classify(lines[i]) == Entry(name, digest);
      }
    }
    SameRecords(parsed, manifest);
  }

  lemma SameRecords(a: map<string, string>, b: map<string, string>)
    requires forall name, digest :: Records(a, name, digest) <==> Records(b, name, digest)
    ensures a == b
  {
    assert forall name | name in a :: Records(a, name, a[name]);
    assert forall name | name in b :: Records(b, name, b[name]);
  }

  // ----- Reduced manifests -----

  /** The line's second word is one of the kept file names. */
  predicate KeepsLine(line: string, kept: set<string>) {
    |Words(line)| >= 2 && Words(line)[1] in kept
  }

  function KeptLines(lines: seq<string>, kept: set<string>): seq<string> {
    if lines == [] then []
    else
      var before := KeptLines(lines[..|lines| - 1], kept);
      if KeepsLine(lines[|lines| - 1], kept) then before + [lines[|lines| - 1]] else before
  }

  function Unlines(lines: seq<string>): string {
    if lines == [] then [] else lines[0] + "\n" + Unlines(lines[1..])
  }

  function ReducedManifest(full: string, kept: set<string>): string {
    Unlines(KeptLines(Lines(full), kept))
  }

  method WriteReducedManifest(full: string, kept: set<string>) returns (reduced: string)
    ensures reduced == ReducedManifest(full, kept)
  {
    var lines := Lines(full);
    var keptLines: seq<string> := [];
    for i := 0 to |lines|
      invariant keptLines == KeptLines(lines[..i], kept)
    {
      assert lines[..i + 1][..i] == lines[..i];
      if KeepsLine(lines[i], kept) {
        keptLines := keptLines + [lines[i]];
      }
    }
    assert lines[..|lines|] == lines;
    reduced := "";
    for i := 0 to |keptLines|
      invariant reduced + Unlines(keptLines[i..]) == Unlines(keptLines)
    {
      assert keptLines[i..][1..] == keptLines[i + 1..];
      assert reduced + (keptLines[i] + "\n" + Unlines(keptLines[i + 1..])) == reduced + (keptLines[i] + "\n") + Unlines(keptLines[i + 1..]);
      reduced := reduced + (keptLines[i] + "\n");
    }
    assert reduced + [] == reduced;
  }

  lemma {:induction false} KeptAreLines(lines: seq<string>, kept: set<string>)
    ensures forall l | l in KeptLines(lines, kept) :: l in lines
  {
    if lines != [] {
      KeptAreLines(lines[..|lines| - 1], kept);
    }
  }

  /** Writing lines out and splitting them again loses at most a final carriage return of each. */
  lemma {:induction false} LinesOfUnlines(lines: seq<string>)
    requires forall l | l in lines :: '\n' !in l
    ensures |Lines(Unlines(lines))| == |lines|
    ensures forall i | 0 <= i < |lines| :: Classify(Lines(Unlines(lines))[i]) == Classify(lines[i])
  {
    hide Classify, WithoutCr, Lines;
    if lines == [] {
      LineEndings([], []);
    } else {
      var rest := Unlines(lines[1..]);
      LinesOfUnlines(lines[1..]);
      FirstLine(lines[0], rest);
      CrChangesNothing(lines[0]);
      assert Lines(Unlines(lines)) == [WithoutCr(lines[0])] + Lines(rest);
      forall i | 0 <= i < |lines|
        ensures Classify(Lines(Unlines(lines))[i]) == Classify(lines[i])
      {
        assert i > 0 ==> Lines(Unlines(lines))[i] == Lines(rest)[i - 1] && lines[i] == lines[1..][i - 1];
      }
    }
  }

  lemma CrChangesNothing(line: string)
    ensures Classify(WithoutCr(line)) == Classify(line)
  {
    hide Classify;
    if WithoutCr(line) != line {
      assert line == WithoutCr(line) + ['\r'] && IsWhitespace('\r');
      TrailingSpace(WithoutCr(line), '\r');
    }
    ClassifyByWords(WithoutCr(line), line);
  }

  lemma {:induction false} ParseByClass(a: seq<string>, b: seq<string>)
    requires |a| == |b| && forall i | 0 <= i < |a| :: Classify(a[i]) == Classify(b[i])
    ensures ParseLines(a).Success? <==> ParseLines(b).Success?
    ensures ParseLines(a).Success? ==> ParseLines(a) == ParseLines(b)
  {
    hide Classify, ErrorAt;
    if a != [] {
      ParseByClass(a[..|a| - 1], b[..|b| - 1]);
    }
  }

  function Restrict(m: map<string, string>, kept: set<string>): map<string, string> {
    map name | name in m && name in kept :: m[name]
  }

  lemma EntryNamesSecondWord(line: string)
    requires Classify(line).Entry?
    ensures |Words(line)| == 2 && Words(line)[1] == Classify(line).name
  {
    TrimKeepsWords(line);
  }

  /** A recorded digest is 64 hexadecimal digits, whatever case it was written in. */
  lemma EntryDigest(line: string)
    requires Classify(line).Entry?
    ensures IsDigest(Classify(line).digest)
  {
    hide Words, Trim, TrimEndCr;
    var raw := Words(Trim(TrimEndCr(line)))[0];
    forall i | 0 <= i < |raw|
      ensures IsHexDigit(Lowercase(raw)[i])
    {
      assert raw[i] in raw;
    }
  }

  lemma {:induction false} KeptLinesParse(lines: seq<string>, kept: set<string>)
    requires ParseLines(lines).Success?
    ensures ParseLines(KeptLines(lines, kept)) == Success(Restrict(ParseLines(lines).value, kept))
  {
    hide Classify, ErrorAt;
    if lines != [] {
      var before, last := lines[..|lines| - 1], lines[|lines| - 1];
      KeptLinesParse(before, kept);
      var keptBefore := KeptLines(before, kept);
      assert (keptBefore + [last])[..|keptBefore|] == keptBefore;
      if Classify(last).Entry? {
        EntryNamesSecondWord(last);
        var e, m := Classify(last), ParseLines(before).value;
        assert Restrict(m[e.name := e.digest], kept) ==
               if e.name in kept then Restrict(m, kept)[e.name := e.digest] else Restrict(m, kept);
      }
    } else {
      assert Restrict(map[], kept) == map[];
    }
  }

  /** A reduced manifest parses, to exactly the kept part of the full one. */
  lemma ReducedManifestParses(full: string, kept: set<string>)
    requires Parse(full).Success?
    ensures Parse(ReducedManifest(full, kept)) == Success(Restrict(Parse(full).value, kept))
  {
    hide Classify;
    var lines := KeptLines(Lines(full), kept);
    KeptLinesParse(Lines(full), kept);
    LinesHaveNoBreaks(full);
    KeptAreLines(Lines(full), kept);
    LinesOfUnlines(lines);
    ParseByClass(Lines(Unlines(lines)), lines);
  }
}
