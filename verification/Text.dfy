/** Text as the parsers see it: lines, trimming, whitespace-separated words and ASCII case. */
module Text {

  /** The Unicode White_Space property. */
  predicate IsWhitespace(c: char) {
    var u := c as int;
    || 0x09 <= u <= 0x0D || u == 0x20 || u == 0x85 || u == 0xA0 || u == 0x1680 || 0x2000 <= u <= 0x200A
    || u == 0x2028 || u == 0x2029 || u == 0x202F || u == 0x205F || u == 0x3000
  }

  predicate NoWhitespace(s: string) {
    forall c | c in s :: !IsWhitespace(c)
  }

  function LineEnd(s: string): (n: nat)
    ensures n <= |s| && '\n' !in s[..n] && (n < |s| ==> s[n] == '\n')
  {
    if s == [] || s[0] == '\n' then 0
    else
      assert s[..1 + LineEnd(s[1..])] == [s[0]] + s[1..][..LineEnd(s[1..])];
      1 + LineEnd(s[1..])
  }

  /** A carriage return belongs to the line ending it precedes. */
  function WithoutCr(line: string): string {
    if line != [] && line[|line| - 1] == '\r' then line[..|line| - 1] else line
  }

  function Lines(s: string): seq<string> {
    if s == [] then []
    else
      var n := LineEnd(s);
      if n == |s| then [s] else [WithoutCr(s[..n])] + Lines(s[n + 1..])
  }

  function TrimStart(s: string): string {
    if s != [] && IsWhitespace(s[0]) then TrimStart(s[1..]) else s
  }

  function TrimEnd(s: string): string {
    if s != [] && IsWhitespace(s[|s| - 1]) then TrimEnd(s[..|s| - 1]) else s
  }

  function TrimEndCr(s: string): string {
    if s != [] && s[|s| - 1] == '\r' then TrimEndCr(s[..|s| - 1]) else s
  }

  function Trim(s: string): string {
    TrimStart(TrimEnd(s))
  }

  function WordLength(s: string): (n: nat)
    ensures n <= |s| && NoWhitespace(s[..n]) && (n < |s| ==> IsWhitespace(s[n]))
  {
    if s == [] || IsWhitespace(s[0]) then 0
    else
      assert s[..1 + WordLength(s[1..])] == [s[0]] + s[1..][..WordLength(s[1..])];
      1 + WordLength(s[1..])
  }

  function Words(s: string): seq<string>
    decreases |s|
  {
    if s == [] then []
    else if IsWhitespace(s[0]) then Words(s[1..])
    else [s[..WordLength(s)]] + Words(s[WordLength(s)..])
  }

  lemma {:induction false} WordLengthIs(w: string, rest: string)
    requires NoWhitespace(w) && (rest == [] || IsWhitespace(rest[0]))
    ensures WordLength(w + rest) == |w|
  {
    if w != [] {
      assert (w + rest)[1..] == w[1..] + rest;
      WordLengthIs(w[1..], rest);
    } else {
      assert w + rest == rest;
    }
  }

  lemma FirstWord(w: string, rest: string)
    requires w != [] && NoWhitespace(w) && (rest == [] || IsWhitespace(rest[0]))
    ensures Words(w + rest) == [w] + Words(rest)
  {
    WordLengthIs(w, rest);
    assert (w + rest)[..|w|] == w && (w + rest)[|w|..] == rest;
  }

  lemma LeadingSpace(c: char, rest: string)
    requires IsWhitespace(c)
    ensures Words([c] + rest) == Words(rest)
  {
    assert ([c] + rest)[1..] == rest;
  }

  lemma NoWords()
    ensures Words([]) == []
  {
  }

  lemma {:induction false} TrailingSpace(s: string, c: char)
    requires IsWhitespace(c)
    ensures Words(s + [c]) == Words(s)
    decreases |s|
  {
    if s == [] {
      assert s + [c] == [c];
    } else if IsWhitespace(s[0]) {
      assert (s + [c])[1..] == s[1..] + [c];
      TrailingSpace(s[1..], c);
    } else {
      var w, rest := s[..WordLength(s)], s[WordLength(s)..];
      assert s == w + rest && s + [c] == w + (rest + [c]);
      TrailingSpace(rest, c);
      FirstWord(w, rest + [c]);
      FirstWord(w, rest);
    }
  }

  lemma {:induction false} TrimEndKeepsWords(s: string)
    ensures Words(TrimEnd(s)) == Words(s) && Words(TrimEndCr(s)) == Words(s)
  {
    if s != [] {
      var before, last := s[..|s| - 1], s[|s| - 1];
      assert s == before + [last];
      TrimEndKeepsWords(before);
      if IsWhitespace(last) {
        TrailingSpace(before, last);
      }
    }
  }

  lemma {:induction false} TrimStartKeepsWords(s: string)
    ensures Words(TrimStart(s)) == Words(s)
    ensures TrimStart(s) != [] ==> !IsWhitespace(TrimStart(s)[0])
  {
    if s != [] {
      TrimStartKeepsWords(s[1..]);
    }
  }

  /** Trimming keeps the words, and what is left starts with the first of them. */
  lemma TrimKeepsWords(s: string)
    ensures var t := Trim(TrimEndCr(s));
            && Words(t) == Words(s)
            && (t == [] <==> Words(s) == [])
            && (t != [] ==> Words(s)[0] != [] && Words(s)[0][0] == t[0])
  {
    TrimEndKeepsWords(s);
    TrimEndKeepsWords(TrimEndCr(s));
    TrimStartKeepsWords(TrimEnd(TrimEndCr(s)));
  }

  /** A terminated line in front is the first line. */
  lemma FirstLine(line: string, rest: string)
    requires '\n' !in line
    ensures Lines(line + "\n" + rest) == [WithoutCr(line)] + Lines(rest)
  {
    var s := line + "\n" + rest;
    assert s[|line|] == '\n';
    var n := LineEnd(s);
    assert forall i | 0 <= i < |line| :: s[i] == line[i] && line[i] in line;
    assert n == |line|;
    assert s[..n] == line && s[n + 1..] == rest;
  }

  /** Both line endings end a line and are no part of it; what is left after the last of them is a line too. */
  lemma LineEndings(line: string, rest: string)
    requires '\n' !in line
    ensures Lines(line + "\r\n" + rest) == [line] + Lines(rest)
    ensures line == [] || line[|line| - 1] != '\r' ==> Lines(line + "\n" + rest) == [line] + Lines(rest)
    ensures line != [] ==> Lines(line) == [line]
    ensures Lines([]) == []
  {
    assert line + "\r\n" + rest == (line + "\r") + "\n" + rest;
    FirstLine(line + "\r", rest);
    assert (line + "\r")[..|line + "\r"| - 1] == line;
    FirstLine(line, rest);
    if line != [] {
      assert LineEnd(line) == |line| by {
        assert forall i | 0 <= i < |line| :: line[i] in line;
      }
    }
  }

  lemma {:induction false} LinesHaveNoBreaks(s: string)
    ensures forall l | l in Lines(s) :: '\n' !in l
    decreases |s|
  {
    if s != [] && LineEnd(s) < |s| {
      LinesHaveNoBreaks(s[LineEnd(s) + 1..]);
    }
  }

  function Lower(c: char): char {
    if 'A' <= c <= 'Z' then (c as int + 32) as char else c
  }

  function Lowercase(s: string): (r: string)
    ensures |r| == |s| && forall i | 0 <= i < |s| :: r[i] == Lower(s[i])
  {
    if s == [] then [] else [Lower(s[0])] + Lowercase(s[1..])
  }

  lemma LowercaseIsIdentity(s: string)
    requires forall c | c in s :: Lower(c) == c
    ensures Lowercase(s) == s
  {
    assert forall i | 0 <= i < |s| :: Lowercase(s)[i] == s[i];
  }
}
