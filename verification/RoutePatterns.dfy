/**
 * Route paths and the caller paths that reach them: the anchored matcher built
 * from a route's path, and the normaliser that turns a caller's spelling into a
 * candidate for it.
 */
module RoutePatterns {
  import opened Text

  // ------------------------------------------------------------------- patterns

  /** One position of a pattern: a literal character, or a braced parameter declaration. */
  datatype Piece = Char(c: char) | Param(decl: string) {
    /** Starlette's only converter that spans segments. */
    predicate Spans() { Param? && EndsWith(decl, ":path") }

    /** The texts this piece matches: itself, one segment, or anything on one line. */
    predicate Fits(s: string) {
      if Char? then s == [c]
      else s != [] && if Spans() then '\n' !in s else '/' !in s
    }
  }

  predicate EndsWith(s: string, suffix: string) {
    |s| >= |suffix| && s[|s| - |suffix|..] == suffix
  }

  predicate IsBrace(c: char) { c == '{' || c == '}' }

  predicate NoBraces(s: string) { forall i | 0 <= i < |s| :: !IsBrace(s[i]) }

  /** How many characters come before the first brace. */
  function Unbraced(s: string): (n: nat)
    ensures n <= |s| && (n < |s| ==> IsBrace(s[n]))
  {
    if s == [] || IsBrace(s[0]) then 0 else 1 + Unbraced(s[1..])
  }

  /** Whether a braced hole starts here, and how many characters it holds. */
  function HoleAt(s: string): Option<nat> {
    if s != [] && s[0] == '{' then
      var n := Unbraced(s[1..]);
      if n + 1 < |s| && s[n + 1] == '}' then Some(n) else None
    else None
  }

  /** A path as the parameter expression finds its holes, leftmost first. */
  function Pieces(raw: string): seq<Piece> {
    if raw == [] then []
    else match HoleAt(raw)
      case Some(n) => [Param(raw[1..n + 1])] + Pieces(raw[n + 2..])
      case None => [Char(raw[0])] + Pieces(raw[1..])
  }

  function Concat(parts: seq<string>): string {
    if parts == [] then [] else parts[0] + Concat(parts[1..])
  }

  /** The anchored expression matches s: s splits into texts that fit the pieces one by one. */
  ghost predicate Accepts(pieces: seq<Piece>, s: string) {
    exists parts :: Splits(pieces, parts, s)
  }

  predicate Splits(pieces: seq<Piece>, parts: seq<string>, s: string) {
    |parts| == |pieces| && Concat(parts) == s && forall i | 0 <= i < |pieces| :: pieces[i].Fits(parts[i])
  }

  /** A backtracking matcher: where the first piece ends is searched from k characters on. */
  predicate Matches(pieces: seq<Piece>, s: string)
    decreases pieces, 1, 0
  {
    if pieces == [] then s == []
    else if pieces[0].Char? then s != [] && s[0] == pieces[0].c && Matches(pieces[1..], s[1..])
    else MatchesFrom(pieces, s, 1)
  }

  predicate MatchesFrom(pieces: seq<Piece>, s: string, k: nat)
    requires pieces != []
    decreases pieces, 0, |s| + 1 - k
  {
    k <= |s| && ((pieces[0].Fits(s[..k]) && Matches(pieces[1..], s[k..])) || MatchesFrom(pieces, s, k + 1))
  }

  function Slashes(s: string): nat {
    if s == [] then 0 else (if s[0] == '/' then 1 else 0) + Slashes(s[1..])
  }

  function PatternSlashes(pieces: seq<Piece>): nat {
    if pieces == [] then 0 else (if pieces[0] == Char('/') then 1 else 0) + PatternSlashes(pieces[1..])
  }

  lemma {:induction false} SlashesConcat(a: string, b: string)
    ensures Slashes(a + b) == Slashes(a) + Slashes(b)
  {
    if a == [] {
      assert a + b == b;
    } else {
      assert (a + b)[1..] == a[1..] + b;
      SlashesConcat(a[1..], b);
    }
  }

  lemma {:induction false} NoSlashes(s: string)
    requires '/' !in s
    ensures Slashes(s) == 0
  {
    if s != [] {
      assert s[0] in s;
      NoSlashes(s[1..]);
    }
  }

  lemma {:induction false} SplitSlashes(pieces: seq<Piece>, parts: seq<string>)
    requires |parts| == |pieces| && forall i | 0 <= i < |pieces| :: pieces[i].Fits(parts[i]) && !pieces[i].Spans()
    ensures Slashes(Concat(parts)) == PatternSlashes(pieces)
    decreases pieces
  {
    if pieces != [] {
      SplitSlashes(pieces[1..], parts[1..]);
      SlashesConcat(parts[0], Concat(parts[1..]));
      assert pieces[0].Fits(parts[0]) && !pieces[0].Spans();
      if pieces[0].Param? {
        NoSlashes(parts[0]);
      } else {
        assert parts[0][1..] == [];
      }
    }
  }

  /** Without a spanning parameter, a match has exactly the slashes of the route. */
  lemma MatchKeepsSlashes(pieces: seq<Piece>, s: string)
    requires Accepts(pieces, s) && forall i | 0 <= i < |pieces| :: !pieces[i].Spans()
    ensures Slashes(s) == PatternSlashes(pieces)
  {
    var parts :| Splits(pieces, parts, s);
    SplitSlashes(pieces, parts);
  }

  // ------------------------------------------------------------------- segments

  /** A segment of a route whose parameters each fill a segment. */
  datatype Segment = Fixed(text: string) | Hole(decl: string)

  predicate WellFormedSegment(g: Segment) {
    match g case Fixed(t) => '/' !in t case Hole(d) => !EndsWith(d, ":path")
  }

  function Chars(s: string): seq<Piece> {
    seq(|s|, i requires 0 <= i < |s| => Char(s[i]))
  }

  function SegmentPieces(g: Segment): seq<Piece> {
    match g case Fixed(t) => Chars(t) case Hole(d) => [Param(d)]
  }

  function RoutePieces(segments: seq<Segment>): seq<Piece>
    requires segments != []
  {
    if |segments| == 1 then SegmentPieces(segments[0])
    else SegmentPieces(segments[0]) + ([Char('/')] + RoutePieces(segments[1..]))
  }

  /** Segment-by-segment comparison: same number, literals equal, holes filled. */
  predicate SegmentsMatch(segments: seq<Segment>, texts: seq<string>) {
    |segments| == |texts| && forall i | 0 <= i < |segments| :: SegmentMatches(segments[i], texts[i])
  }

  predicate SegmentMatches(g: Segment, t: string) {
    match g case Fixed(x) => t == x case Hole(_) => t != []
  }

  /** `s.split("/")`. */
  function Segments(s: string): (r: seq<string>)
    ensures r != []
  {
    if s == [] then [[]]
    else
      var rest := Segments(s[1..]);
      if s[0] == '/' then [[]] + rest else [[s[0]] + rest[0]] + rest[1..]
  }

  lemma {:induction false} SegmentsOfOne(a: string)
    requires '/' !in a
    ensures Segments(a) == [a]
  {
    if a != [] {
      assert a[0] in a;
      SegmentsOfOne(a[1..]);
      assert [a[0]] + a[1..] == a;
    }
  }

  lemma {:induction false} SegmentsCut(a: string, b: string)
    requires '/' !in a
    ensures Segments(a + ("/" + b)) == [a] + Segments(b)
  {
    var s := a + ("/" + b);
    if a == [] {
      assert s[1..] == b;
    } else {
      assert a[0] in a;
      assert s[1..] == a[1..] + ("/" + b);
      SegmentsCut(a[1..], b);
      assert [a[0]] + a[1..] == a;
    }
  }

  lemma {:induction false} SegmentsSplit(s: string) returns (a: string, b: string)
    requires |Segments(s)| > 1
    ensures '/' !in a && s == a + ("/" + b) && Segments(s) == [a] + Segments(b)
  {
    if s[0] == '/' {
      a, b := [], s[1..];
      assert s == [] + ("/" + b);
    } else {
      a, b := SegmentsSplit(s[1..]);
      assert s == [s[0]] + (a + ("/" + b));
      a := [s[0]] + a;
    }
  }

  lemma {:induction false} OneSegment(s: string)
    requires |Segments(s)| == 1
    ensures '/' !in s && Segments(s) == [s]
  {
    if s != [] {
      OneSegment(s[1..]);
      assert s == [s[0]] + s[1..];
    }
  }

  // Splits compose and decompose along concatenation of patterns.

  lemma {:induction false} ConcatOfConcat(a: seq<string>, b: seq<string>)
    ensures Concat(a + b) == Concat(a) + Concat(b)
  {
    if a == [] {
      assert a + b == b;
    } else {
      assert (a + b)[1..] == a[1..] + b;
      ConcatOfConcat(a[1..], b);
    }
  }

  lemma AcceptsBoth(p: seq<Piece>, q: seq<Piece>, s: string, t: string)
    requires Accepts(p, s) && Accepts(q, t)
    ensures Accepts(p + q, s + t)
  {
    var a :| Splits(p, a, s);
    var b :| Splits(q, b, t);
    ConcatOfConcat(a, b);
    assert Splits(p + q, a + b, s + t);
  }

  lemma AcceptsApart(p: seq<Piece>, q: seq<Piece>, u: string) returns (s: string, t: string)
    requires Accepts(p + q, u)
    ensures u == s + t && Accepts(p, s) && Accepts(q, t)
  {
    var parts :| Splits(p + q, parts, u);
    var a, b := parts[..|p|], parts[|p|..];
    assert parts == a + b;
    ConcatOfConcat(a, b);
    s, t := Concat(a), Concat(b);
    assert Splits(p, a, s) by {
      forall i | 0 <= i < |p| ensures p[i].Fits(a[i]) { assert (p + q)[i].Fits(parts[i]); }
    }
    assert Splits(q, b, t) by {
      forall i | 0 <= i < |q| ensures q[i].Fits(b[i]) { assert (p + q)[|p| + i].Fits(parts[|p| + i]); }
    }
  }

  lemma AcceptsOne(piece: Piece, s: string)
    ensures Accepts([piece], s) <==> piece.Fits(s)
  {
    if Accepts([piece], s) {
      var parts :| Splits([piece], parts, s);
      assert [piece][0].Fits(parts[0]);
      assert parts[1..] == [] && Concat(parts[1..]) == [] && parts[0] + [] == parts[0];
      assert s == parts[0];
    }
    if piece.Fits(s) {
      assert s + [] == s;
      assert Splits([piece], [s], s);
    }
  }

  lemma AcceptsCons(pieces: seq<Piece>, s: string)
    requires pieces != []
    ensures Accepts(pieces, s) <==> exists k | 0 <= k <= |s| :: pieces[0].Fits(s[..k]) && Accepts(pieces[1..], s[k..])
  {
    assert pieces == [pieces[0]] + pieces[1..];
    if Accepts(pieces, s) {
      var a, b := AcceptsApart([pieces[0]], pieces[1..], s);
      AcceptsOne(pieces[0], a);
      assert s[..|a|] == a && s[|a|..] == b;
    }
    if k :| 0 <= k <= |s| && pieces[0].Fits(s[..k]) && Accepts(pieces[1..], s[k..]) {
      AcceptsOne(pieces[0], s[..k]);
      AcceptsBoth([pieces[0]], pieces[1..], s[..k], s[k..]);
      assert s == s[..k] + s[k..];
    }
  }

  /** The backtracking matcher decides the anchored expression. */
  lemma {:induction false} MatchesIsAccepts(pieces: seq<Piece>, s: string)
    ensures Matches(pieces, s) <==> Accepts(pieces, s)
    decreases pieces, 1, 0
  {
    if pieces == [] {
      assert Splits([], [], []);
      if Accepts(pieces, s) {
        var parts :| Splits(pieces, parts, s);
        assert parts == [];
      }
    } else {
      hide Accepts;
      AcceptsCons(pieces, s);
      if pieces[0].Char? {
        forall k | 0 <= k <= |s| && pieces[0].Fits(s[..k]) ensures k == 1 { }
        if s != [] {
          assert s[..1] == [s[0]];
          MatchesIsAccepts(pieces[1..], s[1..]);
        }
      } else {
        MatchesFromIsAccepts(pieces, s, 1);
        assert !pieces[0].Fits(s[..0]);
      }
    }
  }

  lemma {:induction false} MatchesFromIsAccepts(pieces: seq<Piece>, s: string, k: nat)
    requires pieces != []
    ensures MatchesFrom(pieces, s, k) <==>
      exists j | k <= j <= |s| :: pieces[0].Fits(s[..j]) && Accepts(pieces[1..], s[j..])
    decreases pieces, 0, |s| + 1 - k
  {
    hide Accepts;
    if k <= |s| {
      MatchesIsAccepts(pieces[1..], s[k..]);
      MatchesFromIsAccepts(pieces, s, k + 1);
    }
  }

  lemma {:induction false} AcceptsChars(t: string, s: string)
    ensures Accepts(Chars(t), s) <==> s == t
    decreases t
  {
    if t == [] {
      assert Splits(Chars(t), [], []);
      if Accepts(Chars(t), s) {
        var parts :| Splits(Chars(t), parts, s);
        assert parts == [];
      }
    } else {
      assert Chars(t) == [Char(t[0])] + Chars(t[1..]);
      if Accepts(Chars(t), s) {
        var a, b := AcceptsApart([Char(t[0])], Chars(t[1..]), s);
        AcceptsOne(Char(t[0]), a);
        AcceptsChars(t[1..], b);
        assert t == [t[0]] + t[1..];
      }
      if s == t {
        AcceptsOne(Char(t[0]), [t[0]]);
        AcceptsChars(t[1..], t[1..]);
        AcceptsBoth([Char(t[0])], Chars(t[1..]), [t[0]], t[1..]);
        assert t == [t[0]] + t[1..];
      }
    }
  }

  lemma SegmentAccepts(g: Segment, s: string)
    requires WellFormedSegment(g)
    ensures Accepts(SegmentPieces(g), s) <==> SegmentMatches(g, s) && '/' !in s
  {
    match g
    case Fixed(t) => AcceptsChars(t, s);
    case Hole(d) => AcceptsOne(Param(d), s);
  }

  /** The anchored matcher and segment-by-segment comparison agree. */
  lemma {:induction false} MatcherIsSegmentwise(segments: seq<Segment>, s: string)
    requires segments != [] && forall i | 0 <= i < |segments| :: WellFormedSegment(segments[i])
    ensures Accepts(RoutePieces(segments), s) <==> SegmentsMatch(segments, Segments(s))
    decreases segments
  {
    hide Accepts, SegmentPieces;
    var g, rest := segments[0], segments[1..];
    assert WellFormedSegment(g);
    if |segments| == 1 {
      SegmentAccepts(g, s);
      if Accepts(RoutePieces(segments), s) {
        SegmentsOfOne(s);
      }
      if SegmentsMatch(segments, Segments(s)) {
        OneSegment(s);
      }
    } else {
      var tail := RoutePieces(rest);
      if Accepts(RoutePieces(segments), s) {
        var a, slashed := AcceptsApart(SegmentPieces(g), [Char('/')] + tail, s);
        var slash, b := AcceptsApart([Char('/')], tail, slashed);
        AcceptsOne(Char('/'), slash);
        SegmentAccepts(g, a);
        MatcherIsSegmentwise(rest, b);
        SegmentsCut(a, b);
        SegmentsMatchCons(segments, a, Segments(b));
      }
      if SegmentsMatch(segments, Segments(s)) {
        var a, b := SegmentsSplit(s);
        SegmentsMatchCons(segments, a, Segments(b));
        SegmentAccepts(g, a);
        MatcherIsSegmentwise(rest, b);
        AcceptsOne(Char('/'), "/");
        AcceptsBoth([Char('/')], tail, "/", b);
        AcceptsBoth(SegmentPieces(g), [Char('/')] + tail, a, "/" + b);
      }
    }
  }

  lemma SegmentsMatchCons(segments: seq<Segment>, a: string, texts: seq<string>)
    requires segments != []
    ensures SegmentsMatch(segments, [a] + texts) <==>
      SegmentMatches(segments[0], a) && SegmentsMatch(segments[1..], texts)
  {
    var all := [a] + texts;
    if SegmentsMatch(segments, all) {
      assert SegmentMatches(segments[0], all[0]);
      forall i | 0 <= i < |segments| - 1 ensures SegmentMatches(segments[1..][i], texts[i]) {
        assert SegmentMatches(segments[i + 1], all[i + 1]);
      }
    }
    if SegmentMatches(segments[0], a) && SegmentsMatch(segments[1..], texts) {
      forall i | 0 <= i < |segments| ensures SegmentMatches(segments[i], all[i]) {
        if i > 0 {
          assert SegmentMatches(segments[1..][i - 1], texts[i - 1]);
        }
      }
    }
  }

  // -------------------------------------------------------------------- callers

  const WILDCARD: char := '\0'

  predicate StartsAtApiRoot(s: string) { "/v1/" <= s || "/internal/" <= s }

  /** `s.split(c, 1)[0]`. */
  function CutAt(c: char, s: string): string {
    if s == [] || s[0] == c then [] else [s[0]] + CutAt(c, s[1..])
  }

  /** Every interpolation hole, with or without a dollar sign, becomes one wildcard. */
  function Collapse(s: string): string {
    if s == [] then []
    else match HoleAt(s)
      case Some(n) => [WILDCARD] + Collapse(s[n + 2..])
      case None =>
        if s[0] == '$' && HoleAt(s[1..]).Some? then [WILDCARD] + Collapse(s[1..][HoleAt(s[1..]).value + 2..])
        else [s[0]] + Collapse(s[1..])
  }

  /** Query and fragment cut, holes widened, one trailing slash dropped; empty outside the API roots. */
  function Normalise(raw: string): string {
    var candidate := Collapse(CutAt('#', CutAt('?', raw)));
    var trimmed :=
      if |candidate| > 1 && candidate[|candidate| - 1] == '/' then candidate[..|candidate| - 1] else candidate;
    if StartsAtApiRoot(trimmed) then trimmed else []
  }

  /** A route path in parts, and how a caller fills each parameter. */
  datatype Part = Lit(text: string) | Slot(decl: string, dollar: bool, filling: string)

  predicate PlainChar(c: char) { c != '?' && c != '#' && c != '$' && !IsBrace(c) }

  predicate WellFormedPart(p: Part) {
    match p
    case Lit(t) => forall i | 0 <= i < |t| :: PlainChar(t[i])
    case Slot(d, _, f) => NoBraces(d) && NoBraces(f) && '?' !in f && '#' !in f
  }

  function RouteText(parts: seq<Part>): string {
    if parts == [] then []
    else (match parts[0] case Lit(t) => t case Slot(d, _, _) => "{" + d + "}") + RouteText(parts[1..])
  }

  function CallerText(parts: seq<Part>): string {
    if parts == [] then []
    else (match parts[0] case Lit(t) => t case Slot(_, dollar, f) => (if dollar then "${" else "{") + f + "}")
         + CallerText(parts[1..])
  }

  function CandidateText(parts: seq<Part>): string {
    if parts == [] then []
    else (match parts[0] case Lit(t) => t case Slot(_, _, _) => [WILDCARD]) + CandidateText(parts[1..])
  }

  /** A hole stands as a null character, which no written path holds. */
  lemma CandidateOfHole(slot: Part, rest: seq<Part>)
    requires slot.Slot?
    ensures CandidateText([slot] + rest) == "\0" + CandidateText(rest)
  {
    assert ([slot] + rest)[1..] == rest;
  }

  function PartPieces(parts: seq<Part>): seq<Piece> {
    if parts == [] then []
    else (match parts[0] case Lit(t) => Chars(t) case Slot(d, _, _) => [Param(d)]) + PartPieces(parts[1..])
  }

  lemma {:induction false} UnbracedUpTo(d: string, rest: string)
    requires NoBraces(d)
    ensures Unbraced(d + ("}" + rest)) == |d|
  {
    var s := d + ("}" + rest);
    if d != [] {
      assert s[0] == d[0] && s[1..] == d[1..] + ("}" + rest);
      UnbracedUpTo(d[1..], rest);
    }
  }

  lemma HoleHere(d: string, rest: string)
    requires NoBraces(d)
    ensures var s := "{" + d + "}" + rest; HoleAt(s) == Some(|d|) && s[1..|d| + 1] == d && s[|d| + 2..] == rest
  {
    var s := "{" + d + "}" + rest;
    assert s[1..] == d + ("}" + rest);
    UnbracedUpTo(d, rest);
  }

  lemma {:induction false} PiecesOfLiteral(t: string, rest: string)
    requires NoBraces(t)
    ensures Pieces(t + rest) == Chars(t) + Pieces(rest)
  {
    if t == [] {
      assert t + rest == rest;
    } else {
      assert (t + rest)[1..] == t[1..] + rest && (t + rest)[0] == t[0];
      PiecesOfLiteral(t[1..], rest);
      assert Chars(t) == [Char(t[0])] + Chars(t[1..]);
    }
  }

  predicate BraceFree(p: Part) {
    match p case Lit(t) => NoBraces(t) case Slot(d, _, _) => NoBraces(d)
  }

  lemma PiecesOfRoute(parts: seq<Part>)
    requires forall i | 0 <= i < |parts| :: WellFormedPart(parts[i])
    ensures Pieces(RouteText(parts)) == PartPieces(parts)
  {
    assert forall i | 0 <= i < |parts| :: BraceFree(parts[i]);
    PiecesOfParts(parts);
  }

  lemma {:induction false} PiecesOfParts(parts: seq<Part>)
    requires forall i | 0 <= i < |parts| :: BraceFree(parts[i])
    ensures Pieces(RouteText(parts)) == PartPieces(parts)
  {
    if parts != [] {
      PiecesOfParts(parts[1..]);
      assert BraceFree(parts[0]);
      var rest := RouteText(parts[1..]);
      match parts[0]
      case Lit(t) => PiecesOfLiteral(t, rest);
      case Slot(d, _, _) => HoleHere(d, rest);
    }
  }

  lemma CollapsePlain(s: string)
    requires s != [] && PlainChar(s[0])
    ensures Collapse(s) == [s[0]] + Collapse(s[1..])
  {
  }

  lemma {:induction false} CollapseLiteral(t: string, rest: string)
    requires forall i | 0 <= i < |t| :: PlainChar(t[i])
    ensures Collapse(t + rest) == t + Collapse(rest)
  {
    if t == [] {
      assert t + rest == rest;
    } else {
      assert (t + rest)[1..] == t[1..] + rest && (t + rest)[0] == t[0];
      CollapsePlain(t + rest);
      hide Collapse;
      CollapseLiteral(t[1..], rest);
      assert t + Collapse(rest) == [t[0]] + (t[1..] + Collapse(rest));
    }
  }

  lemma CollapseHole(dollar: bool, f: string, rest: string)
    requires NoBraces(f)
    ensures Collapse((if dollar then "${" else "{") + f + "}" + rest) == [WILDCARD] + Collapse(rest)
  {
    HoleHere(f, rest);
    if dollar {
      assert ("${" + f + "}" + rest)[1..] == "{" + f + "}" + rest;
    }
  }

  lemma {:induction false} CollapseOfCaller(parts: seq<Part>)
    requires forall i | 0 <= i < |parts| :: WellFormedPart(parts[i])
    ensures Collapse(CallerText(parts)) == CandidateText(parts)
  {
    if parts != [] {
      CollapseOfCaller(parts[1..]);
      assert WellFormedPart(parts[0]);
      var rest := CallerText(parts[1..]);
      match parts[0]
      case Lit(t) => CollapseLiteral(t, rest);
      case Slot(_, dollar, f) => CollapseHole(dollar, f, rest);
    }
  }

  lemma {:induction false} CutAtAbsent(c: char, s: string, rest: string)
    requires c !in s && (rest == [] || rest[0] == c)
    ensures CutAt(c, s + rest) == s
  {
    if s == [] {
      assert s + rest == rest;
    } else {
      assert s[0] in s && (s + rest)[1..] == s[1..] + rest && (s + rest)[0] == s[0];
      CutAtAbsent(c, s[1..], rest);
    }
  }

  lemma {:induction false} CallerHasNoCut(parts: seq<Part>)
    requires forall i | 0 <= i < |parts| :: WellFormedPart(parts[i])
    ensures '?' !in CallerText(parts) && '#' !in CallerText(parts)
  {
    if parts != [] {
      CallerHasNoCut(parts[1..]);
      assert WellFormedPart(parts[0]);
    }
  }

  lemma {:induction false} CandidateAccepted(parts: seq<Part>)
    ensures Accepts(PartPieces(parts), CandidateText(parts))
  {
    if parts == [] {
      assert Splits([], [], []);
    } else {
      CandidateAccepted(parts[1..]);
      match parts[0]
      case Lit(t) =>
        AcceptsChars(t, t);
        AcceptsBoth(Chars(t), PartPieces(parts[1..]), t, CandidateText(parts[1..]));
      case Slot(d, _, _) =>
        AcceptsOne(Param(d), [WILDCARD]);
        AcceptsBoth([Param(d)], PartPieces(parts[1..]), [WILDCARD], CandidateText(parts[1..]));
    }
  }

  lemma {:induction false} SplitIsLongEnough(pieces: seq<Piece>, parts: seq<string>)
    requires |parts| == |pieces| && forall i | 0 <= i < |pieces| :: pieces[i].Fits(parts[i])
    ensures |Concat(parts)| >= |pieces|
    decreases pieces
  {
    if pieces != [] {
      assert pieces[0].Fits(parts[0]);
      SplitIsLongEnough(pieces[1..], parts[1..]);
    }
  }

  /** Every piece takes at least one character. */
  lemma MatchIsLongEnough(pieces: seq<Piece>, s: string)
    ensures Accepts(pieces, s) ==> |s| >= |pieces|
  {
    if Accepts(pieces, s) {
      var parts :| Splits(pieces, parts, s);
      SplitIsLongEnough(pieces, parts);
    }
  }

  lemma {:induction false} CandidateLength(parts: seq<Part>)
    ensures |CandidateText(parts)| == |PartPieces(parts)|
  {
    if parts != [] {
      CandidateLength(parts[1..]);
    }
  }

  lemma CallerNormalises(parts: seq<Part>, query: string)
    requires forall i | 0 <= i < |parts| :: WellFormedPart(parts[i])
    requires query == [] || query[0] == '?' || query[0] == '#'
    ensures Collapse(CutAt('#', CutAt('?', CallerText(parts) + query))) == CandidateText(parts)
  {
    hide Collapse, CallerText, CandidateText, WellFormedPart;
    var text := CallerText(parts);
    CallerHasNoCut(parts);
    CollapseOfCaller(parts);
    assert text + [] == text;
    if query == [] || query[0] == '?' {
      CutAtAbsent('?', text, query);
      CutAtAbsent('#', text, []);
    } else {
      CutFragment(text, query);
    }
  }

  /** A question mark inside a fragment cuts the fragment, which is dropped anyway. */
  lemma CutFragment(text: string, query: string)
    requires '?' !in text && '#' !in text && query != [] && query[0] == '#'
    ensures CutAt('#', CutAt('?', text + query)) == text
  {
    CutPast('?', text, query);
    CutAtAbsent('#', text, CutAt('?', query));
  }

  lemma {:induction false} CutPast(c: char, s: string, rest: string)
    requires c !in s
    ensures CutAt(c, s + rest) == s + CutAt(c, rest)
  {
    if s == [] {
      assert s + rest == rest;
    } else {
      assert s[0] in s && (s + rest)[1..] == s[1..] + rest && (s + rest)[0] == s[0];
      CutPast(c, s[1..], rest);
      assert s + CutAt(c, rest) == [s[0]] + (s[1..] + CutAt(c, rest));
    }
  }

  /**
   * A caller that spells a route with a hole for every parameter, in either
   * spelling and with any query or fragment, normalises to a candidate the route
   * accepts -- exactly when the route does not itself end in a slash.
   */
  lemma OwnCallerIsAccepted(parts: seq<Part>, query: string)
    requires forall i | 0 <= i < |parts| :: WellFormedPart(parts[i])
    requires query == [] || query[0] == '?' || query[0] == '#'
    requires StartsAtApiRoot(CandidateText(parts))
    ensures var candidate := CandidateText(parts);
      Accepts(Pieces(RouteText(parts)), Normalise(CallerText(parts) + query)) <==> candidate[|candidate| - 1] != '/'
  {
    hide RouteText, CallerText, CandidateText, PartPieces, Collapse, CutAt, Pieces, WellFormedPart;
    var candidate := CandidateText(parts);
    CallerNormalises(parts, query);
    PiecesOfRoute(parts);
    CandidateAccepted(parts);
    CandidateLength(parts);
    MatchIsLongEnough(PartPieces(parts), Normalise(CallerText(parts) + query));
  }

  /** Under one of the two roots of the API. */
  ghost predicate UnderApi(s: string) { exists rest :: s == "/v1/" + rest || s == "/internal/" + rest }

  lemma UnderApiIsRoot(s: string)
    ensures UnderApi(s) <==> StartsAtApiRoot(s)
  {
    if "/v1/" <= s {
      assert s == "/v1/" + s[4..];
    }
    if "/internal/" <= s {
      assert s == "/internal/" + s[10..];
    }
  }

  lemma {:induction false} SlashAdded(parts: seq<Part>)
    ensures CallerText(parts + [Lit("/")]) == CallerText(parts) + "/"
    ensures CandidateText(parts + [Lit("/")]) == CandidateText(parts) + "/"
  {
    var more := parts + [Lit("/")];
    if parts == [] {
      assert more[1..] == [];
    } else {
      assert more[1..] == parts[1..] + [Lit("/")];
      SlashAdded(parts[1..]);
    }
  }

  lemma Trimmed(raw: string, text: string, c: string)
    requires Collapse(CutAt('#', CutAt('?', raw))) == text && c != [] && c[|c| - 1] != '/'
    requires text == c || text == c + "/"
    ensures Normalise(raw) == if StartsAtApiRoot(c) then c else ""
  {
    hide Collapse, CutAt, StartsAtApiRoot;
    assert (c + "/")[..|c|] == c;
  }

  /**
   * What a caller's spelling becomes: the path with a wildcard for each hole, without the
   * query and without one trailing slash, if it is under a root of the API, and else nothing.
   */
  lemma NormalisedCaller(parts: seq<Part>, query: string)
    requires forall i | 0 <= i < |parts| :: WellFormedPart(parts[i])
    requires query == [] || query[0] == '?' || query[0] == '#'
    requires var c := CandidateText(parts); c != [] && c[|c| - 1] != '/'
    ensures var c := CandidateText(parts);
      && Normalise(CallerText(parts) + query) == (if UnderApi(c) then c else "")
      && Normalise(CallerText(parts) + "/" + query) == (if UnderApi(c) then c else "")
  {
    hide CallerText, CandidateText, Collapse, CutAt, WellFormedPart, UnderApi, Normalise, StartsAtApiRoot;
    var c := CandidateText(parts);
    UnderApiIsRoot(c);
    CallerNormalises(parts, query);
    Trimmed(CallerText(parts) + query, c, c);
    SlashNormalises(parts, query);
    Trimmed(CallerText(parts) + "/" + query, c + "/", c);
  }

  lemma SlashNormalises(parts: seq<Part>, query: string)
    requires forall i | 0 <= i < |parts| :: WellFormedPart(parts[i])
    requires query == [] || query[0] == '?' || query[0] == '#'
    ensures Collapse(CutAt('#', CutAt('?', CallerText(parts) + "/" + query))) == CandidateText(parts) + "/"
  {
    hide CallerText, CandidateText, Collapse, CutAt;
    SlashAdded(parts);
    CallerNormalises(parts + [Lit("/")], query);
  }

  // ------------------------------------------------------------ routes as written

  function SegmentText(g: Segment): string {
    match g case Fixed(t) => t case Hole(d) => "{" + d + "}"
  }

  function RouteRaw(segments: seq<Segment>): string
    requires segments != []
  {
    if |segments| == 1 then SegmentText(segments[0])
    else SegmentText(segments[0]) + ("/" + RouteRaw(segments[1..]))
  }

  predicate PlainSegment(g: Segment) {
    WellFormedSegment(g) && match g case Fixed(t) => NoBraces(t) case Hole(d) => NoBraces(d)
  }

  lemma PiecesOfSegment(g: Segment, rest: string)
    requires PlainSegment(g)
    ensures Pieces(SegmentText(g) + rest) == SegmentPieces(g) + Pieces(rest)
  {
    match g
    case Fixed(t) => PiecesOfLiteral(t, rest);
    case Hole(d) => HoleHere(d, rest);
  }

  lemma {:induction false} PiecesOfSegments(segments: seq<Segment>)
    requires segments != [] && forall i | 0 <= i < |segments| :: PlainSegment(segments[i])
    ensures Pieces(RouteRaw(segments)) == RoutePieces(segments)
  {
    hide Pieces, SegmentText, SegmentPieces;
    var g := segments[0];
    assert PlainSegment(g);
    if |segments| == 1 {
      PiecesOfSegment(g, []);
      assert SegmentText(g) + [] == SegmentText(g);
      NoPieces();
      assert SegmentPieces(g) + [] == SegmentPieces(g);
    } else {
      var rest := RouteRaw(segments[1..]);
      PiecesOfSegments(segments[1..]);
      PiecesOfSegment(g, "/" + rest);
      PiecesOfLiteral("/", rest);
      assert Chars("/") == [Char('/')];
    }
  }

  lemma NoPieces()
    ensures Pieces([]) == []
  {
  }

  /** A route whose parameters each fill a segment matches a path exactly segment by segment. */
  lemma RouteMatchesSegmentwise(segments: seq<Segment>, s: string)
    requires segments != [] && forall i | 0 <= i < |segments| :: PlainSegment(segments[i])
    ensures Accepts(Pieces(RouteRaw(segments)), s) <==> SegmentsMatch(segments, Segments(s))
  {
    PiecesOfSegments(segments);
    MatcherIsSegmentwise(segments, s);
  }

  lemma {:induction false} PartPiecesConcat(a: seq<Part>, b: seq<Part>)
    ensures PartPieces(a + b) == PartPieces(a) + PartPieces(b)
  {
    if a == [] {
      assert a + b == b;
    } else {
      assert (a + b)[1..] == a[1..] + b;
      PartPiecesConcat(a[1..], b);
    }
  }

  lemma {:induction false} PatternSlashesConcat(p: seq<Piece>, q: seq<Piece>)
    ensures PatternSlashes(p + q) == PatternSlashes(p) + PatternSlashes(q)
  {
    if p == [] {
      assert p + q == q;
    } else {
      assert (p + q)[1..] == p[1..] + q;
      PatternSlashesConcat(p[1..], q);
    }
  }

  /** A route and one that extends it by a segment or more never accept each other's callers. */
  lemma ParentAndChildShareNoCaller(parts: seq<Part>, more: seq<Part>, s: string)
    requires forall i | 0 <= i < |parts| :: WellFormedPart(parts[i])
    requires forall i | 0 <= i < |more| :: WellFormedPart(more[i])
    requires var child := PartPieces(parts + more); forall i | 0 <= i < |child| :: !child[i].Spans()
    requires PatternSlashes(PartPieces(more)) > 0
    ensures !(Accepts(Pieces(RouteText(parts)), s) && Accepts(Pieces(RouteText(parts + more)), s))
  {
    hide Pieces, RouteText, WellFormedPart;
    PiecesOfRoute(parts);
    PiecesOfRoute(parts + more);
    PartPiecesConcat(parts, more);
    var parent, child := PartPieces(parts), PartPieces(parts + more);
    forall i | 0 <= i < |parent| ensures !parent[i].Spans() {
      assert parent[i] == child[i];
    }
    PatternSlashesConcat(parent, PartPieces(more));
    if Accepts(parent, s) && Accepts(child, s) {
      MatchKeepsSlashes(parent, s);
      MatchKeepsSlashes(child, s);
    }
  }

  // --------------------------------------------------------- what a route accepts

  /** What a declared parameter stands for: with `:path`, anything on one line; otherwise one segment. */
  predicate Fills(decl: string, m: string) {
    m != [] && if |decl| >= 5 && decl[|decl| - 5..] == ":path" then '\n' !in m else '/' !in m
  }

  /** A part of a route takes this text: a literal itself, a parameter whatever fills it. */
  predicate Takes(p: Part, m: string) {
    match p case Lit(t) => m == t case Slot(d, _, _) => Fills(d, m)
  }

  ghost predicate Filled(parts: seq<Part>, s: string) {
    exists ms: seq<string> :: FilledBy(parts, ms, s)
  }

  predicate FilledBy(parts: seq<Part>, ms: seq<string>, s: string) {
    |ms| == |parts| && Concat(ms) == s && forall i | 0 <= i < |parts| :: Takes(parts[i], ms[i])
  }

  lemma PartAccepts(p: Part, s: string)
    ensures Accepts(PartPieces([p]), s) <==> Takes(p, s)
  {
    assert [p][1..] == [];
    match p
    case Lit(t) =>
      assert Chars(t) + [] == Chars(t);
      AcceptsChars(t, s);
    case Slot(d, _, _) =>
      assert [Param(d)] + [] == [Param(d)];
      AcceptsOne(Param(d), s);
      assert Param(d).Fits(s) <==> Fills(d, s) by { assert |":path"| == 5; }
  }

  /** A route accepts a path exactly when the path is the route with every parameter filled. */
  lemma {:induction false} RouteAcceptsFilled(parts: seq<Part>, s: string)
    ensures Accepts(PartPieces(parts), s) <==> Filled(parts, s)
    decreases parts
  {
    if parts == [] {
      AcceptsChars([], s);
      assert Chars([]) == [];
      if s == [] { assert FilledBy(parts, [], s); }
    } else {
      hide Accepts;
      var p, rest := parts[0], parts[1..];
      assert parts == [p] + rest;
      PartPiecesConcat([p], rest);
      if Accepts(PartPieces(parts), s) {
        var a, b := AcceptsApart(PartPieces([p]), PartPieces(rest), s);
        PartAccepts(p, a);
        RouteAcceptsFilled(rest, b);
        var ms :| FilledBy(rest, ms, b);
        assert ([a] + ms)[1..] == ms;
        assert FilledBy(parts, [a] + ms, s);
      }
      if ms :| FilledBy(parts, ms, s) {
        assert Takes(parts[0], ms[0]) && FilledBy(rest, ms[1..], Concat(ms[1..]));
        PartAccepts(p, ms[0]);
        RouteAcceptsFilled(rest, Concat(ms[1..]));
        AcceptsBoth(PartPieces([p]), PartPieces(rest), ms[0], Concat(ms[1..]));
      }
    }
  }

  /** The same for routes as they are written. */
  lemma WrittenRouteAccepts(parts: seq<Part>, s: string)
    requires forall i | 0 <= i < |parts| :: BraceFree(parts[i])
    ensures Accepts(Pieces(RouteText(parts)), s) <==> Filled(parts, s)
    ensures Matches(Pieces(RouteText(parts)), s) <==> Filled(parts, s)
  {
    PiecesOfParts(parts);
    RouteAcceptsFilled(parts, s);
    MatchesIsAccepts(PartPieces(parts), s);
  }

  lemma ConcatOfThree(a: string, b: string, c: string)
    ensures Concat([a, b, c]) == a + b + c
  {
    assert [a, b, c][1..] == [b, c] && [b, c][1..] == [c] && [c][1..] == [];
    assert Concat([c]) == c + [] == c;
    assert Concat([b, c]) == b + c;
    assert a + (b + c) == a + b + c;
  }

  lemma TextOfThree(pre: string, decl: string, post: string)
    ensures RouteText([Lit(pre), Slot(decl, false, []), Lit(post)]) == pre + "{" + decl + "}" + post
  {
    var x, y, z := Lit(pre), Slot(decl, false, []), Lit(post);
    assert [x, y, z][1..] == [y, z] && [y, z][1..] == [z] && [z][1..] == [];
    assert RouteText([z]) == post + [] == post;
    assert RouteText([y, z]) == "{" + decl + "}" + post;
    assert pre + ("{" + decl + "}" + post) == pre + "{" + decl + "}" + post;
  }

  /** One parameter between two literals: what it takes is what stands between them. */
  lemma OneParameterAccepts(pre: string, decl: string, post: string, s: string)
    requires NoBraces(pre) && NoBraces(decl) && NoBraces(post)
    ensures Accepts(Pieces(pre + "{" + decl + "}" + post), s) <==> exists m :: Fills(decl, m) && s == pre + m + post
  {
    var parts := [Lit(pre), Slot(decl, false, []), Lit(post)];
    TextOfThree(pre, decl, post);
    assert forall i | 0 <= i < |parts| :: BraceFree(parts[i]);
    hide Pieces, Accepts, RouteText, Matches, Concat, NoBraces, Fills;
    WrittenRouteAccepts(parts, s);
    if Filled(parts, s) {
      var ms :| FilledBy(parts, ms, s);
      assert Takes(parts[0], ms[0]) && Takes(parts[1], ms[1]) && Takes(parts[2], ms[2]);
      assert ms == [pre, ms[1], post];
      ConcatOfThree(pre, ms[1], post);
    }
    if m :| Fills(decl, m) && s == pre + m + post {
      ConcatOfThree(pre, m, post);
      assert FilledBy(parts, [pre, m, post], s);
    }
  }
}
