/**
 * Selectors by their grammar: plain characters, strings and bracketed groups, nested
 * to any depth.  What the splitter and the normaliser do is stated on these texts
 * without the automaton that both of them run.
 */
module CssGrammar {
  import opened Text
  import opened CssSelectors

  // ---------------------------------------------------------------- the grammar

  /** A character of a string as it is written: itself, or a backslash and any character. */
  datatype Glyph = Lit(c: char) | Esc(c: char)

  /** A piece of nested text: a character, a string, or a group between brackets. */
  datatype Unit =
    | Mark(c: char)
    | Literal(quote: char, glyphs: seq<Glyph>)
    | Group(open: char, inner: seq<Unit>, close: char)

  function SpellGlyphs(glyphs: seq<Glyph>): string {
    if glyphs == [] then []
    else (match glyphs[0] case Lit(c) => [c] case Esc(c) => ['\\', c]) + SpellGlyphs(glyphs[1..])
  }

  function SpellUnit(u: Unit): string
    decreases u, 1
  {
    match u
    case Mark(c) => [c]
    case Literal(q, glyphs) => [q] + SpellGlyphs(glyphs) + [q]
    case Group(open, inner, close) => [open] + Spell(inner) + [close]
  }

  function Spell(units: seq<Unit>): string
    decreases units, 0
  {
    if units == [] then [] else SpellUnit(units[0]) + Spell(units[1..])
  }

  predicate GoodGlyphs(q: char, glyphs: seq<Glyph>) {
    forall i | 0 <= i < |glyphs| :: glyphs[i].Lit? ==> glyphs[i].c != q && glyphs[i].c != '\\'
  }

  /** Groups open and close with either bracket; at top level a closing one on its own is a character. */
  predicate Good(u: Unit, nested: bool)
    decreases u
  {
    match u
    case Mark(c) => c !in "\"'([" && (nested ==> c !in ")]")
    case Literal(q, glyphs) => q in "\"'" && GoodGlyphs(q, glyphs)
    case Group(open, inner, close) =>
      open in "([" && close in ")]" && forall i | 0 <= i < |inner| :: Good(inner[i], true)
  }

  predicate AllGood(units: seq<Unit>, nested: bool) { forall i | 0 <= i < |units| :: Good(units[i], nested) }

  /** What an unfinished text ends with: nothing, an open group, or an open string, perhaps cut after a backslash. */
  datatype Tail =
    | Closed
    | OpenGroup(open: char, inner: seq<Unit>, rest: Tail)
    | OpenLiteral(quote: char, glyphs: seq<Glyph>, cut: bool)

  function SpellTail(t: Tail): string {
    match t
    case Closed => []
    case OpenGroup(open, inner, rest) => [open] + (Spell(inner) + SpellTail(rest))
    case OpenLiteral(q, glyphs, cut) => [q] + (SpellGlyphs(glyphs) + if cut then ['\\'] else [])
  }

  predicate GoodTail(t: Tail) {
    match t
    case Closed => true
    case OpenGroup(open, inner, rest) => open in "([" && AllGood(inner, true) && GoodTail(rest)
    case OpenLiteral(q, glyphs, _) => q in "\"'" && GoodGlyphs(q, glyphs)
  }

  // ------------------------------------------------------------------ splitting

  /** A string leaves the scanner where it was and separates nothing. */
  lemma {:induction false} GlyphsStay(d: nat, q: Quote, glyphs: seq<Glyph>)
    requires GoodGlyphs(q, glyphs)
    ensures After(Quoted(d, q), SpellGlyphs(glyphs)) == Quoted(d, q)
    ensures NoTopComma(Quoted(d, q), SpellGlyphs(glyphs))
    decreases glyphs
  {
    if glyphs != [] {
      var m, rest := Quoted(d, q), SpellGlyphs(glyphs[1..]);
      GlyphsStay(d, q, glyphs[1..]);
      match glyphs[0]
      case Lit(c) => ReadOne(m, c, rest);
      case Esc(c) =>
        assert ['\\', c] + rest == ['\\'] + ([c] + rest);
        ReadOne(m, '\\', [c] + rest);
        ReadOne(Escaped(d, q), c, rest);
    }
  }

  lemma ReadOne(m: Mode, c: char, rest: string)
    ensures After(m, [c] + rest) == After(Next(m, c), rest)
    ensures NoTopComma(m, [c] + rest) <==> !(m == TOP && c == ',') && NoTopComma(Next(m, c), rest)
  {
    assert ([c] + rest)[1..] == rest;
  }

  lemma ReadBoth(m: Mode, a: string, b: string)
    ensures After(m, a + b) == After(After(m, a), b)
    ensures NoTopComma(m, a + b) <==> NoTopComma(m, a) && NoTopComma(After(m, a), b)
  {
    AfterConcat(m, a, b);
    NoTopCommaConcat(m, a, b);
  }

  lemma ReadLast(m: Mode, c: char)
    ensures After(m, [c]) == Next(m, c) && (NoTopComma(m, [c]) <==> !(m == TOP && c == ','))
  {
    ReadOne(m, c, []);
    assert [c] + [] == [c];
  }

  /** So does a unit, whatever it holds, unless it is itself a comma at top level. */
  lemma {:induction false} UnitStays(d: nat, u: Unit)
    requires Good(u, d > 0)
    ensures After(Bare(d), SpellUnit(u)) == Bare(d)
    ensures NoTopComma(Bare(d), SpellUnit(u)) <==> !(d == 0 && u == Mark(','))
    decreases u, 1
  {
    hide After, NoTopComma;
    match u
    case Mark(c) => ReadLast(Bare(d), c);
    case Literal(q, glyphs) =>
      var text := SpellGlyphs(glyphs);
      GlyphsStay(d, q, glyphs);
      assert [q] + text + [q] == [q] + (text + [q]);
      ReadOne(Bare(d), q, text + [q]);
      ReadBoth(Quoted(d, q), text, [q]);
      ReadLast(Quoted(d, q), q);
    case Group(open, inner, close) =>
      var text := Spell(inner);
      UnitsStay(d + 1, inner);
      assert [open] + text + [close] == [open] + (text + [close]);
      ReadOne(Bare(d), open, text + [close]);
      ReadBoth(Bare(d + 1), text, [close]);
      ReadLast(Bare(d + 1), close);
  }

  lemma {:induction false} UnitsStay(d: nat, units: seq<Unit>)
    requires AllGood(units, d > 0)
    ensures After(Bare(d), Spell(units)) == Bare(d)
    ensures NoTopComma(Bare(d), Spell(units)) <==> !(d == 0 && Mark(',') in units)
    decreases units, 0
  {
    hide Good;
    if units == [] {
      ReadNothing(Bare(d));
    } else {
      UnitStays(d, units[0]);
      UnitsStay(d, units[1..]);
      hide After, NoTopComma, SpellUnit;
      ReadBoth(Bare(d), SpellUnit(units[0]), Spell(units[1..]));
      assert units == [units[0]] + units[1..];
    }
  }

  lemma ReadNothing(m: Mode)
    ensures After(m, []) == m && NoTopComma(m, [])
  {
  }

  /** Nothing in an unfinished group or string separates. */
  lemma {:induction false} TailIsShielded(d: nat, t: Tail)
    requires GoodTail(t)
    ensures NoTopComma(Bare(d), SpellTail(t))
    decreases t
  {
    hide After, NoTopComma;
    match t
    case Closed => ReadNothing(Bare(d));
    case OpenGroup(open, inner, rest) =>
      UnitsStay(d + 1, inner);
      TailIsShielded(d + 1, rest);
      ReadOne(Bare(d), open, Spell(inner) + SpellTail(rest));
      ReadBoth(Bare(d + 1), Spell(inner), SpellTail(rest));
    case OpenLiteral(q, glyphs, cut) =>
      var end := if cut then ['\\'] else [];
      GlyphsStay(d, q, glyphs);
      ReadOne(Bare(d), q, SpellGlyphs(glyphs) + end);
      ReadBoth(Quoted(d, q), SpellGlyphs(glyphs), end);
      ReadLast(Quoted(d, q), '\\');
      ReadNothing(Quoted(d, q));
  }

  function SpellAll(parts: seq<seq<Unit>>, tail: Tail): seq<string>
    requires parts != []
  {
    if |parts| == 1 then [Spell(parts[0]) + SpellTail(tail)] else [Spell(parts[0])] + SpellAll(parts[1..], tail)
  }

  predicate GoodPart(part: seq<Unit>) { AllGood(part, false) && Mark(',') !in part }

  lemma {:induction false} SpelledIsWellCut(parts: seq<seq<Unit>>, tail: Tail)
    requires parts != [] && GoodTail(tail) && forall i | 0 <= i < |parts| :: GoodPart(parts[i])
    ensures WellCut(SpellAll(parts, tail))
    decreases parts
  {
    hide After, NoTopComma, Spell, SpellTail;
    assert GoodPart(parts[0]);
    UnitsStay(0, parts[0]);
    if |parts| == 1 {
      TailIsShielded(0, tail);
      ReadBoth(TOP, Spell(parts[0]), SpellTail(tail));
    } else {
      SpelledIsWellCut(parts[1..], tail);
      assert SpellAll(parts, tail)[1..] == SpellAll(parts[1..], tail);
    }
  }

  /**
   * A selector list is cut at its top-level commas and nowhere else: not in strings, not
   * in groups however deep, and not in what is left open at the end.
   */
  lemma SplitsAtTopCommas(parts: seq<seq<Unit>>, tail: Tail)
    requires parts != [] && GoodTail(tail) && forall i | 0 <= i < |parts| :: GoodPart(parts[i])
    ensures RawParts(Join(",", SpellAll(parts, tail))) == SpellAll(parts, tail)
  {
    SpelledIsWellCut(parts, tail);
    RawPartsCharacterised(Join(",", SpellAll(parts, tail)), SpellAll(parts, tail));
  }

  // ---------------------------------------------------------------- normalising

  /** A text is read from p by copying it. */
  predicate Copies(p: Printed, s: string) {
    var r := Feed(p, s);
    r.Text() == p.Text() + s && r.mode == p.mode && (s != [] ==> !r.gap)
  }

  lemma PrintedCopy(p: Printed, c: char)
    requires !(p.mode == TOP && (IsSpace(c) || IsCombinator(c)))
    ensures Print(p, c) == Printed(p.Text() + [c], false, Next(p.mode, c))
  {
  }

  lemma FeedFirst(p: Printed, c: char, rest: string)
    ensures Feed(p, [c] + rest) == Feed(Print(p, c), rest)
  {
    assert ([c] + rest)[1..] == rest;
  }

  lemma FeedNothing(p: Printed)
    ensures Feed(p, []) == p
  {
  }

  lemma CopiesBoth(p: Printed, a: string, b: string)
    requires Copies(p, a) && Copies(Feed(p, a), b)
    ensures Copies(p, a + b)
  {
    hide Feed;
    FeedConcat(p, a, b);
    FeedNothing(Feed(p, a));
    assert p.Text() + (a + b) == (p.Text() + a) + b;
  }

  lemma {:induction false} GlyphsCopy(p: Printed, d: nat, q: Quote, glyphs: seq<Glyph>)
    requires p.mode == Quoted(d, q) && GoodGlyphs(q, glyphs)
    ensures Copies(p, SpellGlyphs(glyphs))
    decreases glyphs
  {
    hide Feed;
    if glyphs == [] {
      FeedNothing(p);
    } else {
      var rest := SpellGlyphs(glyphs[1..]);
      match glyphs[0]
      case Lit(c) =>
        PrintedCopy(p, c);
        FeedFirst(p, c, rest);
        var r := Print(p, c);
        GlyphsCopy(r, d, q, glyphs[1..]);
        FeedNothing(r);
        assert p.Text() + ([c] + rest) == r.Text() + rest;
      case Esc(c) =>
        PrintedCopy(p, '\\');
        var e := Print(p, '\\');
        PrintedCopy(e, c);
        var r := Print(e, c);
        assert ['\\', c] + rest == ['\\'] + ([c] + rest);
        FeedFirst(p, '\\', [c] + rest);
        FeedFirst(e, c, rest);
        GlyphsCopy(r, d, q, glyphs[1..]);
        FeedNothing(r);
        assert p.Text() + (['\\', c] + rest) == r.Text() + rest;
    }
  }

  /** At top level a unit is copied unless it is whitespace or a combinator. */
  predicate Solid(u: Unit) { u.Mark? ==> !IsSpace(u.c) && u.c !in ">+~" }

  lemma Wrapped(p: Printed, open: char, text: string, close: char)
    requires !(p.mode == TOP && (IsSpace(open) || IsCombinator(open)))
    requires Copies(Printed(p.Text() + [open], false, Next(p.mode, open)), text)
    requires Next(p.mode, open) != TOP && Next(Next(p.mode, open), close) == p.mode
    ensures Copies(p, [open] + text + [close])
  {
    hide Next;
    var inside := Printed(p.Text() + [open], false, Next(p.mode, open));
    PrintedCopy(p, open);
    assert [open] + text + [close] == [open] + (text + [close]);
    FeedFirst(p, open, text + [close]);
    FeedConcat(inside, text, [close]);
    var r := Feed(inside, text);
    PrintedCopy(r, close);
    assert [close] + [] == [close];
    FeedFirst(r, close, []);
    FeedNothing(Print(r, close));
    assert p.Text() + ([open] + text + [close]) == (p.Text() + [open]) + text + [close];
  }

  lemma {:induction false} UnitCopies(p: Printed, d: nat, u: Unit)
    requires p.mode == Bare(d) && Good(u, d > 0) && (d == 0 ==> Solid(u))
    ensures Copies(p, SpellUnit(u)) && SpellUnit(u) != []
    decreases u, 1
  {
    hide Feed, Copies;
    match u
    case Mark(c) =>
      MarkCopies(p, d, c);
    case Literal(q, glyphs) =>
      GlyphsCopy(Printed(p.Text() + [q], false, Quoted(d, q)), d, q, glyphs);
      Wrapped(p, q, SpellGlyphs(glyphs), q);
    case Group(open, inner, close) =>
      UnitsCopy(Printed(p.Text() + [open], false, Bare(d + 1)), d + 1, inner);
      Wrapped(p, open, Spell(inner), close);
  }

  lemma MarkCopies(p: Printed, d: nat, c: char)
    requires p.mode == Bare(d) && Good(Mark(c), d > 0) && (d == 0 ==> Solid(Mark(c)))
    ensures Copies(p, [c])
  {
    PrintedCopy(p, c);
    FeedFirst(p, c, []);
    assert [c] + [] == [c];
    FeedNothing(Print(p, c));
  }

  lemma {:induction false} UnitsCopy(p: Printed, d: nat, units: seq<Unit>)
    requires p.mode == Bare(d) && AllGood(units, d > 0)
    requires d == 0 ==> forall i | 0 <= i < |units| :: Solid(units[i])
    ensures Copies(p, Spell(units))
    decreases units, 0
  {
    hide Good, Solid, SpellUnit;
    if units == [] {
      FeedNothing(p);
    } else {
      UnitCopies(p, d, units[0]);
      var r := Feed(p, SpellUnit(units[0]));
      hide Feed;
      UnitsCopy(r, d, units[1..]);
      CopiesBoth(p, SpellUnit(units[0]), Spell(units[1..]));
    }
  }

  /** A compound selector: units, none of which is whitespace or a combinator. */
  predicate Compound(units: seq<Unit>) {
    units != [] && AllGood(units, false) && forall i | 0 <= i < |units| :: Solid(units[i])
  }

  /** What stands between two compounds: whitespace, or a combinator with any whitespace around it. */
  datatype Link = Space(w: string) | Combinator(v: string, c: char, w: string)

  predicate GoodLink(l: Link) {
    match l
    case Space(w) => w != [] && AllSpace(w)
    case Combinator(v, c, w) => AllSpace(v) && c in ">+~" && AllSpace(w)
  }

  function SpellLink(l: Link): string {
    match l case Space(w) => w case Combinator(v, c, w) => v + [c] + w
  }

  function PrintLink(l: Link): string {
    match l case Space(_) => " " case Combinator(_, c, _) => [' ', c, ' ']
  }

  datatype Linked = Linked(link: Link, compound: seq<Unit>)

  predicate GoodSteps(steps: seq<Linked>) {
    forall i | 0 <= i < |steps| :: GoodLink(steps[i].link) && Compound(steps[i].compound)
  }

  function SpellSteps(steps: seq<Linked>): string {
    if steps == [] then [] else SpellLink(steps[0].link) + (Spell(steps[0].compound) + SpellSteps(steps[1..]))
  }

  function PrintSteps(steps: seq<Linked>): string {
    if steps == [] then [] else PrintLink(steps[0].link) + (Spell(steps[0].compound) + PrintSteps(steps[1..]))
  }

  lemma {:induction false} FeedSpaces(p: Printed, w: string)
    requires p.mode == TOP && AllSpace(w)
    ensures Feed(p, w) == if w == [] then p else Printed(p.core, p.core != [], TOP)
    decreases w
  {
    if w != [] {
      FeedSpaces(Print(p, w[0]), w[1..]);
    }
  }

  lemma FeedLink(p: Printed, l: Link)
    requires p.mode == TOP && !p.gap && p.core != [] && GoodLink(l)
    ensures var r := Feed(p, SpellLink(l)); r.mode == TOP && r.Text() == p.core + PrintLink(l)
  {
    match l
    case Space(w) => FeedSpaces(p, w);
    case Combinator(v, c, w) =>
      FeedSpaces(p, v);
      var q := Feed(p, v);
      FeedOne(p, v, c);
      var r := Print(q, c);
      FeedConcat(p, v + [c], w);
      FeedSpaces(r, w);
      hide Feed;
      assert r.Text() == p.core + [' '] + [c] + [' '];
      assert r.Text() == p.core + [' ', c, ' '];
  }

  lemma CompoundCopies(p: Printed, units: seq<Unit>)
    requires p.mode == TOP && Compound(units)
    ensures Spell(units) != [] && Feed(p, Spell(units)) == Printed(p.Text() + Spell(units), false, TOP)
  {
    UnitsCopy(p, 0, units);
    UnitCopies(p, 0, units[0]);
    hide Feed, SpellUnit;
  }

  lemma {:induction false} FeedSteps(p: Printed, steps: seq<Linked>)
    requires p.mode == TOP && !p.gap && p.core != [] && GoodSteps(steps)
    ensures Feed(p, SpellSteps(steps)) == Printed(p.core + PrintSteps(steps), false, TOP)
    decreases steps
  {
    hide Feed, Compound, GoodLink, SpellLink, PrintLink, Spell;
    if steps == [] {
      FeedNothing(p);
      assert p.core + [] == p.core;
    } else {
      var l, units, rest := steps[0].link, steps[0].compound, steps[1..];
      FeedLink(p, l);
      var q := Feed(p, SpellLink(l));
      CompoundCopies(q, units);
      var r := Feed(q, Spell(units));
      FeedSteps(r, rest);
      FeedConcat(p, SpellLink(l), Spell(units) + SpellSteps(rest));
      FeedConcat(q, Spell(units), SpellSteps(rest));
      assert p.core + PrintSteps(steps) == p.core + PrintLink(l) + Spell(units) + PrintSteps(rest);
    }
  }

  predicate VisibleEnds(s: string) { s != [] && !IsSpace(s[0]) && !IsSpace(s[|s| - 1]) }

  lemma UnitIsVisible(u: Unit)
    requires Good(u, false) && Solid(u)
    ensures VisibleEnds(SpellUnit(u))
  {
  }

  lemma VisibleBoth(a: string, b: string)
    requires VisibleEnds(a) && VisibleEnds(b)
    ensures VisibleEnds(a + b)
  {
    hide IsSpace;
  }

  lemma {:induction false} CompoundIsVisible(units: seq<Unit>)
    requires Compound(units)
    ensures VisibleEnds(Spell(units))
  {
    hide VisibleEnds, Good, Solid, SpellUnit;
    UnitIsVisible(units[0]);
    if |units| == 1 {
      assert Spell(units[1..]) == [] && SpellUnit(units[0]) + [] == SpellUnit(units[0]);
    } else {
      CompoundIsVisible(units[1..]);
      VisibleBoth(SpellUnit(units[0]), Spell(units[1..]));
    }
  }

  lemma {:induction false} StepsAreVisible(text: string, steps: seq<Linked>)
    requires VisibleEnds(text) && GoodSteps(steps)
    ensures VisibleEnds(text + PrintSteps(steps))
    decreases steps
  {
    hide Compound, GoodLink, PrintLink, Spell, IsSpace;
    if steps == [] {
      assert text + [] == text;
    } else {
      var s := steps[0];
      CompoundIsVisible(s.compound);
      var next := text + PrintLink(s.link) + Spell(s.compound);
      assert next[0] == text[0] && next[|next| - 1] == Spell(s.compound)[|Spell(s.compound)| - 1];
      StepsAreVisible(next, steps[1..]);
      assert text + PrintSteps(steps) == next + PrintSteps(steps[1..]);
    }
  }

  lemma StripOfGap(s: string, gap: bool)
    requires VisibleEnds(s)
    ensures Strip(if gap then s + [' '] else s) == s
  {
    if gap {
      TrimRightOfPadded(s, [' ']);
    }
    StripOfTrimmed(s);
  }

  /**
   * A selector of compounds and combinators, whatever whitespace it is spelled with,
   * normalises to its compounds as they are, one space where there was whitespace and
   * one on either side of each combinator.
   */
  lemma NormalizeOfSelector(lead: string, first: seq<Unit>, steps: seq<Linked>, trail: string)
    requires AllSpace(lead) && AllSpace(trail) && Compound(first) && GoodSteps(steps)
    ensures Normalize(lead + (Spell(first) + (SpellSteps(steps) + trail))) == Spell(first) + PrintSteps(steps)
  {
    var rest := Spell(first) + (SpellSteps(steps) + trail);
    hide Feed, Compound, GoodSteps, SpellSteps, PrintSteps, Spell, Strip, AllSpace;
    FeedConcat(START, lead, rest);
    FeedSpaces(START, lead);
    CompoundCopies(START, first);
    var p := Feed(START, Spell(first));
    assert [] + Spell(first) == Spell(first);
    FeedConcat(START, Spell(first), SpellSteps(steps) + trail);
    FeedSteps(p, steps);
    FeedConcat(p, SpellSteps(steps), trail);
    var q := Feed(p, SpellSteps(steps));
    FeedSpaces(q, trail);
    CompoundIsVisible(first);
    StepsAreVisible(Spell(first), steps);
    StripOfGap(q.core, Feed(q, trail).gap);
  }

  /** A group or a string on its own is one part and its own normal form, whatever it holds. */
  lemma NestedIsShielded(u: Unit)
    requires Good(u, false) && !u.Mark?
    ensures RawParts(SpellUnit(u)) == [SpellUnit(u)] && Normalize(SpellUnit(u)) == SpellUnit(u)
  {
    var text := SpellUnit(u);
    assert [u][1..] == [] && text + [] == text;
    assert Spell([u]) == text;
    hide SpellUnit, Good, RawParts, Normalize;
    assert GoodPart([u]) && Compound([u]);
    SplitsAtTopCommas([[u]], Closed);
    assert SpellAll([[u]], Closed) == [text];
    NormalizeOfSelector([], [u], [], []);
    assert SpellSteps([]) == [] && PrintSteps([]) == [];
    assert [] + (text + ([] + [])) == text;
  }
}
