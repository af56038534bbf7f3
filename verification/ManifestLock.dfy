/**
 * The migration manifest: a lock file that lists each migration with its checksum,
 * printed and parsed line by line.
 */
module ManifestLock {
  import opened Text

  datatype Entry = Entry(id: string, digest: string)

  const SEPARATOR := " sha256="

  // ----------------------------------------------------------------------- lines

  /** The characters at which Python's `splitlines` breaks. */
  predicate IsBreak(c: char) {
    || '\n' <= c <= '\r'
    || '\U{1C}' <= c <= '\U{1E}'
    || c == '\U{85}' || c == '\U{2028}' || c == '\U{2029}'
  }

  predicate SingleLine(s: string) { forall i | 0 <= i < |s| :: !IsBreak(s[i]) }

  /** `s.splitlines()`, when buf has been read of the current line. */
  function LinesFrom(buf: string, s: string): seq<string>
    decreases s
  {
    if s == [] then if buf == [] then [] else [buf]
    else if !IsBreak(s[0]) then LinesFrom(buf + [s[0]], s[1..])
    else if |s| >= 2 && s[0] == '\r' && s[1] == '\n' then [buf] + LinesFrom([], s[2..])
    else [buf] + LinesFrom([], s[1..])
  }

  function Lines(s: string): seq<string> { LinesFrom([], s) }

  function LineOf(e: Entry): string { e.id + SEPARATOR + e.digest }

  function Body(entries: seq<Entry>): seq<string> {
    seq(|entries|, i requires 0 <= i < |entries| => LineOf(entries[i]))
  }

  function Terminated(lines: seq<string>): string {
    if lines == [] then [] else lines[0] + "\n" + Terminated(lines[1..])
  }

  /** The fixed comment lines a manifest starts with. */
  type Header = h: seq<string> | forall i | 0 <= i < |h| :: IsCommentLine(h[i]) witness []

  predicate IsCommentLine(s: string) { s != [] && s[0] == '#' && SingleLine(s) }

  /** The rendered manifest; without entries its body is one blank line. */
  function Render(header: Header, entries: seq<Entry>): string {
    Terminated(header) + Join("\n", Body(entries)) + "\n"
  }

  // --------------------------------------------------------------------- parsing

  /** Where the separator first occurs. */
  function FindSeparator(s: string): Option<nat> {
    if |s| < |SEPARATOR| then None
    else if s[..|SEPARATOR|] == SEPARATOR then Some(0)
    else match FindSeparator(s[1..]) case Some(n) => Some(n + 1) case None => None
  }

  datatype Parsed = Ignored | Malformed | Found(entry: Entry)

  function ParseLine(raw: string): Parsed {
    var line := Strip(raw);
    if line == [] || line[0] == '#' then Ignored
    else match FindSeparator(line)
      case None => Malformed
      case Some(n) =>
        SeparatorFits(line);
        Found(Entry(Strip(line[..n]), Strip(line[n + |SEPARATOR|..])))
  }

  lemma {:induction false} SeparatorFits(s: string)
    ensures match FindSeparator(s)
      case Some(n) => n + |SEPARATOR| <= |s| && s[n..n + |SEPARATOR|] == SEPARATOR
      case None => true
  {
    if |s| >= |SEPARATOR| && s[..|SEPARATOR|] != SEPARATOR {
      SeparatorFits(s[1..]);
      if FindSeparator(s[1..]).Some? {
        ShiftedSlice(s, FindSeparator(s[1..]).value, |SEPARATOR|);
      }
    }
  }

  lemma ShiftedSlice(s: string, n: nat, k: nat)
    requires s != [] && n + k <= |s| - 1
    ensures s[1..][n..n + k] == s[n + 1..n + 1 + k]
  {
  }

  /** The entries of the lines added to known; None when a line is malformed. */
  function ParseLines(lines: seq<string>, known: map<string, string>): Option<map<string, string>>
    decreases lines
  {
    if lines == [] then Some(known)
    else match ParseLine(lines[0])
      case Ignored => ParseLines(lines[1..], known)
      case Malformed => None
      case Found(e) => ParseLines(lines[1..], known[e.id := e.digest])
  }

  function Parse(text: string): Option<map<string, string>> { ParseLines(Lines(text), map[]) }

  // ------------------------------------------------------------- one line at a time

  predicate Trimmed(s: string) { s == [] || (!IsSpace(s[0]) && !IsSpace(s[|s| - 1])) }

  /** What a migration id and a digest must be like to survive the lock file. */
  predicate Lockable(e: Entry) {
    && e.id != [] && Trimmed(e.id) && e.id[0] != '#' && FindSeparator(e.id) == None
    && Trimmed(e.digest)
  }

  lemma {:induction false} FindInLine(id: string, digest: string)
    requires FindSeparator(id) == None
    ensures FindSeparator(id + (SEPARATOR + digest)) == Some(|id|)
  {
    var s := id + (SEPARATOR + digest);
    if id == [] {
      assert s[..|SEPARATOR|] == SEPARATOR;
    } else {
      assert s[1..] == id[1..] + (SEPARATOR + digest);
      NoneInTail(id);
      FindInLine(id[1..], digest);
      if s[..|SEPARATOR|] == SEPARATOR {
        NoStraddle(id, digest);
      }
    }
  }

  lemma NoneInTail(id: string)
    requires id != [] && FindSeparator(id) == None
    ensures FindSeparator(id[1..]) == None
  {
  }

  /** A separator cannot start in the id and end after it: its only space is its first character. */
  lemma NoStraddle(id: string, digest: string)
    requires id != [] && FindSeparator(id) == None
    ensures (id + (SEPARATOR + digest))[..|SEPARATOR|] != SEPARATOR
  {
    var s := id + (SEPARATOR + digest);
    if |id| < |SEPARATOR| {
      assert s[|id|] == ' ' && s[..|SEPARATOR|][|id|] == ' ';
      assert forall i | 0 < i < |SEPARATOR| :: SEPARATOR[i] != ' ';
    } else {
      assert s[..|SEPARATOR|] == id[..|SEPARATOR|];
    }
  }

  lemma LineIsTrimmed(e: Entry)
    requires Lockable(e)
    ensures Strip(LineOf(e)) == LineOf(e)
  {
    var line := LineOf(e);
    assert line[0] == e.id[0];
    assert line[|line| - 1] == (SEPARATOR + e.digest)[|SEPARATOR + e.digest| - 1];
    StripOfTrimmed(line);
  }

  lemma TrimmedIsStripped(s: string)
    ensures Strip(s) == s <==> Trimmed(s)
  {
    StripIsTrimmed(s);
    if Trimmed(s) {
      StripOfTrimmed(s);
    }
  }

  /** A rendered entry parses back to itself exactly when it is lockable. */
  lemma LineRoundTrip(e: Entry)
    ensures ParseLine(LineOf(e)) == Found(e) <==> Lockable(e)
  {
    hide Strip, FindSeparator;
    if Lockable(e) {
      var line := LineOf(e);
      LineIsTrimmed(e);
      assert line == e.id + (SEPARATOR + e.digest);
      FindInLine(e.id, e.digest);
      assert line[..|e.id|] == e.id && line[|e.id| + |SEPARATOR|..] == e.digest;
      TrimmedIsStripped(e.id);
      TrimmedIsStripped(e.digest);
    }
    if ParseLine(LineOf(e)) == Found(e) {
      ParsedIsLockable(LineOf(e), e);
    }
  }

  /** Whatever line an entry is parsed from, it is lockable, unless its id came out empty. */
  lemma ParsedIsLockable(raw: string, e: Entry)
    requires ParseLine(raw) == Found(e)
    ensures Lockable(e)
  {
    hide FindSeparator, Strip;
    var line := Strip(raw);
    var n := FindSeparator(line).value;
    SeparatorFits(line);
    StripIsTrimmed(raw);
    var before := line[..n];
    StripIsTrimmed(before);
    StripIsTrimmed(line[n + |SEPARATOR|..]);
    NotAtStart(line, n);
    StripKeepsHead(before);
    FirstIsFirst(line, n);
    NoneInStripped(before);
  }

  lemma NotAtStart(line: string, n: nat)
    requires line != [] && !IsSpace(line[0]) && n + |SEPARATOR| <= |line| && line[n..n + |SEPARATOR|] == SEPARATOR
    ensures n > 0
  {
    assert line[n] == SEPARATOR[0];
  }

  lemma StripKeepsHead(s: string)
    requires s != [] && !IsSpace(s[0])
    ensures Strip(s) != [] && Strip(s)[0] == s[0] && Strip(s) <= s
  {
    var w := TrimRightSplit(s);
    assert TrimRight(s) != [] || s == w;
  }

  /** Before the first separator there is none. */
  lemma {:induction false} FirstIsFirst(s: string, n: nat)
    requires FindSeparator(s) == Some(n) && n <= |s|
    ensures FindSeparator(s[..n]) == None
  {
    if n > 0 {
      FirstIsFirst(s[1..], n - 1);
      assert s[..n][1..] == s[1..][..n - 1];
      if n >= |SEPARATOR| {
        assert s[..n][..|SEPARATOR|] == s[..|SEPARATOR|];
      }
    }
  }

  lemma NoneInStripped(s: string)
    requires s != [] && !IsSpace(s[0]) && FindSeparator(s) == None
    ensures FindSeparator(Strip(s)) == None
  {
    StripKeepsHead(s);
    NoneInPrefix(s, |Strip(s)|);
    assert s[..|Strip(s)|] == Strip(s);
  }

  lemma {:induction false} NoneInPrefix(s: string, k: nat)
    requires FindSeparator(s) == None && k <= |s|
    ensures FindSeparator(s[..k]) == None
  {
    if k >= |SEPARATOR| {
      assert s[..k][..|SEPARATOR|] == s[..|SEPARATOR|];
      assert s[..k][1..] == s[1..][..k - 1];
      NoneInPrefix(s[1..], k - 1);
    }
  }

  // ------------------------------------------------------------ the whole manifest

  /** An entry that survives: lockable, and without line breaks. */
  predicate Survives(e: Entry) { Lockable(e) && SingleLine(e.id) && SingleLine(e.digest) }

  function MapOf(entries: seq<Entry>, known: map<string, string>): map<string, string>
    decreases entries
  {
    if entries == [] then known else MapOf(entries[1..], known[entries[0].id := entries[0].digest])
  }

  predicate DistinctIds(entries: seq<Entry>) {
    forall i, j | 0 <= i < j < |entries| :: entries[i].id != entries[j].id
  }

  lemma {:induction false} LineReadBack(buf: string, line: string, rest: string)
    requires SingleLine(line)
    ensures LinesFrom(buf, line + "\n" + rest) == [buf + line] + Lines(rest)
    decreases line
  {
    var s := line + "\n" + rest;
    if line == [] {
      assert s[1..] == rest && buf + line == buf;
    } else {
      assert s[0] == line[0] && s[1..] == line[1..] + "\n" + rest;
      LineReadBack(buf + [line[0]], line[1..], rest);
      assert buf + [line[0]] + line[1..] == buf + line;
    }
  }

  lemma {:induction false} LinesReadBack(lines: seq<string>, rest: string)
    requires forall i | 0 <= i < |lines| :: SingleLine(lines[i])
    ensures Lines(Terminated(lines) + rest) == lines + Lines(rest)
  {
    if lines == [] {
      assert Terminated(lines) + rest == rest;
    } else {
      LinesReadBack(lines[1..], rest);
      var tail := Terminated(lines[1..]) + rest;
      assert Terminated(lines) + rest == lines[0] + "\n" + tail;
      LineReadBack([], lines[0], tail);
      assert [] + lines[0] == lines[0];
    }
  }

  lemma {:induction false} JoinIsTerminated(lines: seq<string>)
    requires lines != []
    ensures Join("\n", lines) + "\n" == Terminated(lines)
  {
    if |lines| == 1 {
      assert Terminated(lines[1..]) == [];
    } else {
      JoinIsTerminated(lines[1..]);
      assert Join("\n", lines) + "\n" == lines[0] + "\n" + (Join("\n", lines[1..]) + "\n");
    }
  }

  lemma {:induction false} BodyParses(entries: seq<Entry>, known: map<string, string>)
    requires forall i | 0 <= i < |entries| :: Lockable(entries[i])
    ensures ParseLines(Body(entries), known) == Some(MapOf(entries, known))
    decreases entries
  {
    hide ParseLine, Lockable;
    if entries != [] {
      LineRoundTrip(entries[0]);
      assert Body(entries)[1..] == Body(entries[1..]);
      BodyParses(entries[1..], known[entries[0].id := entries[0].digest]);
    }
  }

  lemma CommentIsIgnored(line: string)
    requires IsCommentLine(line)
    ensures ParseLine(line) == Ignored
  {
    StripKeepsHead(line);
  }

  lemma {:induction false} HeaderIgnored(header: Header, lines: seq<string>, known: map<string, string>)
    ensures ParseLines(header + lines, known) == ParseLines(lines, known)
    decreases header
  {
    hide ParseLine, IsCommentLine;
    if header == [] {
      assert header + lines == lines;
    } else {
      CommentIsIgnored(header[0]);
      assert (header + lines)[1..] == header[1..] + lines;
      HeaderIgnored(header[1..], lines, known);
    }
  }

  lemma SingleConcat(a: string, b: string)
    requires SingleLine(a) && SingleLine(b)
    ensures SingleLine(a + b)
  {
    hide IsBreak;
  }

  lemma LineIsSingle(e: Entry)
    requires SingleLine(e.id) && SingleLine(e.digest)
    ensures SingleLine(LineOf(e))
  {
    assert SingleLine(SEPARATOR);
    SingleConcat(e.id, SEPARATOR);
    SingleConcat(e.id + SEPARATOR, e.digest);
  }

  lemma RenderedLines(header: Header, entries: seq<Entry>)
    requires forall i | 0 <= i < |entries| :: SingleLine(entries[i].id) && SingleLine(entries[i].digest)
    ensures Lines(Render(header, entries)) == header + (if entries == [] then [""] else Body(entries))
  {
    hide LinesFrom, Terminated, IsBreak, LineOf;
    forall i | 0 <= i < |header| ensures SingleLine(header[i]) {
      assert IsCommentLine(header[i]);
    }
    var body := if entries == [] then [""] else Body(entries);
    forall i | 0 <= i < |body| ensures SingleLine(body[i]) {
      if entries != [] {
        LineIsSingle(entries[i]);
      }
    }
    assert Join("\n", Body(entries)) + "\n" == Terminated(body) by {
      if entries == [] {
        BlankLine();
      } else {
        JoinIsTerminated(Body(entries));
      }
    }
    assert Render(header, entries) == Terminated(header) + (Join("\n", Body(entries)) + "\n");
    LinesReadBack(header, Terminated(body));
    assert Terminated(body) + [] == Terminated(body);
    LinesReadBack(body, []);
    NoLines();
  }

  lemma BlankLine()
    ensures Terminated([""]) == "\n" && Join("\n", []) == ""
  {
    assert [""][1..] == [];
  }

  lemma NoLines()
    ensures Lines([]) == []
  {
  }

  lemma SurvivorsParse(header: Header, entries: seq<Entry>)
    requires forall i | 0 <= i < |entries| :: Survives(entries[i])
    ensures Parse(Render(header, entries)) == Some(MapOf(entries, map[]))
  {
    hide Render, LinesFrom, ParseLine, Lockable;
    RenderedLines(header, entries);
    var body := if entries == [] then [""] else Body(entries);
    HeaderIgnored(header, body, map[]);
    if entries == [] {
      BlankIsIgnored();
      assert body[1..] == [];
    } else {
      BodyParses(entries, map[]);
    }
  }

  lemma BlankIsIgnored()
    ensures ParseLine("") == Ignored
  {
  }

  // Whatever is parsed survives: nothing else can come back from a lock file.

  lemma {:induction false} LinesAreSingle(buf: string, s: string)
    requires SingleLine(buf)
    ensures forall i | 0 <= i < |LinesFrom(buf, s)| :: SingleLine(LinesFrom(buf, s)[i])
    decreases s
  {
    if s != [] {
      if !IsBreak(s[0]) {
        LinesAreSingle(buf + [s[0]], s[1..]);
      } else if |s| >= 2 && s[0] == '\r' && s[1] == '\n' {
        LinesAreSingle([], s[2..]);
      } else {
        LinesAreSingle([], s[1..]);
      }
    }
  }

  lemma StripKeepsSingle(s: string)
    requires SingleLine(s)
    ensures SingleLine(Strip(s))
  {
    hide IsBreak;
    var v := TrimRightSplit(s);
    var t := TrimRight(s);
    var w := TrimLeftSplit(t);
    forall i | 0 <= i < |Strip(s)| ensures !IsBreak(Strip(s)[i]) {
      assert Strip(s)[i] == t[|w| + i] == s[|w| + i];
    }
  }

  lemma FoundSurvives(raw: string, e: Entry)
    requires SingleLine(raw) && ParseLine(raw) == Found(e)
    ensures Survives(e)
  {
    ParsedIsLockable(raw, e);
    hide Strip, FindSeparator, IsBreak, Lockable;
    var line := Strip(raw);
    StripKeepsSingle(raw);
    var n := FindSeparator(line).value;
    SeparatorFits(line);
    StripKeepsSingle(line[..n]);
    StripKeepsSingle(line[n + |SEPARATOR|..]);
  }

  lemma {:induction false} ParsedSurvive(lines: seq<string>, known: map<string, string>)
    requires forall i | 0 <= i < |lines| :: SingleLine(lines[i])
    requires forall id | id in known :: Survives(Entry(id, known[id]))
    ensures ParseLines(lines, known).Some? ==>
      forall id | id in ParseLines(lines, known).value :: Survives(Entry(id, ParseLines(lines, known).value[id]))
    decreases lines
  {
    hide ParseLine, Survives, SingleLine;
    if lines != [] {
      match ParseLine(lines[0])
      case Ignored => ParsedSurvive(lines[1..], known);
      case Malformed =>
      case Found(e) =>
        FoundSurvives(lines[0], e);
        ParsedSurvive(lines[1..], known[e.id := e.digest]);
    }
  }

  lemma {:induction false} MapHasEntries(entries: seq<Entry>, known: map<string, string>)
    requires DistinctIds(entries)
    ensures forall i | 0 <= i < |entries| ::
      entries[i].id in MapOf(entries, known) && MapOf(entries, known)[entries[i].id] == entries[i].digest
    ensures forall id | id in known && (forall i | 0 <= i < |entries| :: entries[i].id != id) ::
      id in MapOf(entries, known) && MapOf(entries, known)[id] == known[id]
    decreases entries
  {
    if entries != [] {
      var e := entries[0];
      MapHasEntries(entries[1..], known[e.id := e.digest]);
    }
  }

  /** Parsing a rendered manifest gives the same map back exactly when every entry survives. */
  lemma ManifestRoundTrip(header: Header, entries: seq<Entry>)
    requires DistinctIds(entries)
    ensures Parse(Render(header, entries)) == Some(MapOf(entries, map[])) <==>
      forall i | 0 <= i < |entries| :: Survives(entries[i])
  {
    hide Render, LinesFrom, ParseLines, MapOf, Survives;
    if forall i | 0 <= i < |entries| :: Survives(entries[i]) {
      SurvivorsParse(header, entries);
    }
    if Parse(Render(header, entries)) == Some(MapOf(entries, map[])) {
      var m := MapOf(entries, map[]);
      LinesAreSingle([], Render(header, entries));
      ParsedSurvive(Lines(Render(header, entries)), map[]);
      MapHasEntries(entries, map[]);
      forall i | 0 <= i < |entries| ensures Survives(entries[i]) {
        assert entries[i] == Entry(entries[i].id, m[entries[i].id]);
      }
    }
  }

  // ------------------------------------------------------------------- the check

  /** The status of a check: 0 when the lock lists exactly the directory's migrations. */
  function CheckStatus(actual: seq<Entry>, lock: Option<string>): int {
    match lock
    case None => 1
    case Some(text) => if Parse(text) == Some(MapOf(actual, map[])) then 0 else 1
  }

  /**
   * A lock written for one state of the directory passes for another exactly when
   * they list the same migrations with the same checksums.
   */
  lemma CheckDetectsDrift(header: Header, written: seq<Entry>, actual: seq<Entry>)
    requires DistinctIds(written) && forall i | 0 <= i < |written| :: Survives(written[i])
    ensures CheckStatus(actual, Some(Render(header, written))) == 0 <==> MapOf(actual, map[]) == MapOf(written, map[])
  {
    hide Render, Parse, MapOf, Survives;
    ManifestRoundTrip(header, written);
  }

  // --------------------------------------------------------------- lines by their text

  /** The text says " sha256=" at place n. */
  predicate SaysAt(s: string, n: nat) { n + 8 <= |s| && s[n..n + 8] == " sha256=" }

  predicate FirstSaid(s: string, n: nat) { SaysAt(s, n) && forall m: nat | m < n :: !SaysAt(s, m) }

  lemma {:induction false} SeparatorByText(s: string)
    ensures match FindSeparator(s) case Some(n) => FirstSaid(s, n) case None => forall n: nat :: !SaysAt(s, n)
  {
    if |s| >= 8 {
      SeparatorByText(s[1..]);
      assert SaysAt(s, 0) <==> s[..8] == " sha256=";
      forall n: nat ensures SaysAt(s, n + 1) <==> SaysAt(s[1..], n) {
        if n + 9 <= |s| {
          ShiftedSlice(s, n, 8);
        }
      }
      assert forall n: nat | SaysAt(s, n) && n > 0 :: SaysAt(s[1..], n - 1);
    }
  }

  /**
   * What a line means, padding aside: nothing when blank or a comment, an entry when it
   * says " sha256=", the id before the first such place and the digest after it, else malformed.
   */
  lemma LineByText(v: string, t: string, w: string)
    requires AllSpace(v) && AllSpace(w) && Trimmed(t)
    ensures ParseLine(v + t + w) == Ignored <==> t == "" || t[0] == '#'
    ensures ParseLine(v + t + w) == Malformed <==> !(t == "" || t[0] == '#') && forall n: nat :: !SaysAt(t, n)
    ensures match ParseLine(v + t + w)
      case Found(e) => exists n: nat | FirstSaid(t, n) :: e == Entry(Strip(t[..n]), Strip(t[n + 8..]))
      case _ => true
  {
    StripOfPadded(v, t, w);
    StrippedByText(v + t + w, t);
    hide ParseLine, Strip, AllSpace, SaysAt;
  }

  lemma StrippedByText(raw: string, t: string)
    requires Strip(raw) == t
    ensures ParseLine(raw) == Ignored <==> t == "" || t[0] == '#'
    ensures ParseLine(raw) == Malformed <==> !(t == "" || t[0] == '#') && forall n: nat :: !SaysAt(t, n)
    ensures match ParseLine(raw)
      case Found(e) => exists n: nat | FirstSaid(t, n) :: e == Entry(Strip(t[..n]), Strip(t[n + 8..]))
      case _ => true
  {
    SeparatorByText(t);
    hide FindSeparator, Strip, AllSpace;
  }

  /** A manifest fails to parse exactly when one of its lines is malformed. */
  lemma {:induction false} ParseFails(lines: seq<string>, known: map<string, string>)
    ensures ParseLines(lines, known).None? <==> exists i | 0 <= i < |lines| :: ParseLine(lines[i]) == Malformed
    decreases lines
  {
    hide ParseLine;
    if lines != [] {
      assert forall i | 0 < i < |lines| :: lines[i] == lines[1..][i - 1];
      assert forall i | 0 <= i < |lines[1..]| :: lines[1..][i] == lines[i + 1];
      match ParseLine(lines[0])
      case Ignored => ParseFails(lines[1..], known);
      case Malformed =>
      case Found(e) => ParseFails(lines[1..], known[e.id := e.digest]);
    }
  }

  predicate Gives(line: string, id: string) {
    match ParseLine(line) case Found(e) => e.id == id case _ => false
  }

  /** An id that no line gives is not added. */
  lemma {:induction false} ParseGivesNone(lines: seq<string>, known: map<string, string>, id: string)
    requires ParseLines(lines, known).Some? && forall k | 0 <= k < |lines| :: !Gives(lines[k], id)
    ensures var m := ParseLines(lines, known).value;
      (id in m <==> id in known) && (id in m ==> m[id] == known[id])
    decreases lines
  {
    hide ParseLine;
    if lines != [] {
      match ParseLine(lines[0])
      case Ignored => ParseGivesNone(lines[1..], known, id);
      case Malformed =>
      case Found(e) =>
        assert !Gives(lines[0], id);
        ParseGivesNone(lines[1..], known[e.id := e.digest], id);
    }
  }

  /** An id that some line gives is held with the digest of the last such line. */
  lemma {:induction false} ParseGivesLast(lines: seq<string>, known: map<string, string>, id: string, i: nat)
    requires ParseLines(lines, known).Some? && i < |lines| && Gives(lines[i], id)
    requires forall k | i < k < |lines| :: !Gives(lines[k], id)
    ensures var m := ParseLines(lines, known).value; id in m && m[id] == ParseLine(lines[i]).entry.digest
    decreases lines
  {
    hide ParseLine, Gives;
    var rest := lines[1..];
    var after := match ParseLine(lines[0]) case Found(e) => known[e.id := e.digest] case _ => known;
    assert ParseLines(lines, known) == ParseLines(rest, after);
    if i == 0 {
      assert Gives(lines[0], id) && id in after && after[id] == ParseLine(lines[0]).entry.digest by {
        GivenEntry(lines[0], id);
      }
      assert forall k | 0 <= k < |rest| :: rest[k] == lines[k + 1];
      ParseGivesNone(rest, after, id);
    } else {
      ParseGivesLast(rest, after, id, i - 1);
    }
  }

  lemma GivenEntry(line: string, id: string)
    requires Gives(line, id)
    ensures ParseLine(line).Found? && ParseLine(line).entry.id == id
  {
  }

  /** A text breaks into lines at these characters, a carriage return and a line feed together being one. */
  lemma BreaksByCodePoint(c: char)
    ensures IsBreak(c) <==> c as int in [0x0A, 0x0B, 0x0C, 0x0D, 0x1C, 0x1D, 0x1E, 0x85, 0x2028, 0x2029]
  {
  }

  lemma {:induction false} BreakEndsLine(buf: string, line: string, c: char, rest: string)
    requires SingleLine(line) && IsBreak(c) && !(c == '\r' && rest != [] && rest[0] == '\n')
    ensures LinesFrom(buf, line + [c] + rest) == [buf + line] + Lines(rest)
    decreases line
  {
    hide IsBreak;
    var s := line + [c] + rest;
    if line == [] {
      assert s == [c] + rest && s[1..] == rest && buf + line == buf;
    } else {
      assert s[0] == line[0] && s[1..] == line[1..] + [c] + rest;
      BreakEndsLine(buf + [line[0]], line[1..], c, rest);
      assert buf + [line[0]] + line[1..] == buf + line;
    }
  }

  // ----------------------------------------------------------- the code itself

  method ParseManifest(text: string) returns (result: Option<map<string, string>>)
    ensures result == Parse(text)
    ensures result.None? <==> exists i | 0 <= i < |Lines(text)| :: ParseLine(Lines(text)[i]) == Malformed
  {
    hide ParseLine, LinesFrom;
    var lines := Lines(text);
    ParseFails(lines, map[]);
    var found: map<string, string> := map[];
    for i := 0 to |lines|
      invariant ParseLines(lines, map[]) == ParseLines(lines[i..], found)
    {
      assert lines[i..][1..] == lines[i + 1..];
      var parsed := ParseLine(lines[i]);
      match parsed
      case Ignored =>
      case Malformed => return None;
      case Found(e) => found := found[e.id := e.digest];
    }
    result := Some(found);
  }

  /** A migrations directory: its files as they hash now, and its lock file. */
  class MigrationsDir {
    const header: Header
    var present: bool
    var actual: seq<Entry>
    var lock: Option<string>

    constructor (header: Header, present: bool, actual: seq<Entry>, lock: Option<string>)
      ensures this.header == header && this.present == present && this.actual == actual && this.lock == lock
    {
      this.header := header;
      this.present := present;
      this.actual := actual;
      this.lock := lock;
    }

    method CheckOrWrite(write: bool) returns (status: int)
      modifies this`lock
      ensures !present ==> status == 2 && lock == old(lock)
      ensures present && write ==> status == 0 && lock == Some(Render(header, actual))
      ensures present && !write ==> status == CheckStatus(actual, lock) && lock == old(lock)
      ensures present && !write ==>
        if lock.Some? && Parse(lock.value) == Some(MapOf(actual, map[])) then status == 0 else status == 1
    {
      hide Render;
      if !present {
        return 2;
      }
      if write {
        lock := Some(Render(header, actual));
        return 0;
      }
      if lock.None? {
        return 1;
      }
      var expected := ParseManifest(lock.value);
      if expected == Some(MapOf(actual, map[])) {
        return 0;
      }
      return 1;
    }

    /** A check right after a write, on an unchanged directory, passes exactly when every entry survives. */
    method WriteThenCheck() returns (status: int)
      requires present && DistinctIds(actual)
      modifies this`lock
      ensures status == 0 <==> forall i | 0 <= i < |actual| :: Survives(actual[i])
    {
      hide Render, Parse, MapOf, Survives;
      var written := CheckOrWrite(true);
      status := CheckOrWrite(false);
      ManifestRoundTrip(header, actual);
    }
  }
}
