/**
 * Selector lists: the comma splitter and the whitespace normaliser of the
 * stylesheet shadowing gate.  Both walk a text with the same quote, escape and
 * bracket-depth automaton; the gate compares what the normaliser prints.
 */
module CssSelectors {
  import opened Text

  // ---------------------------------------------------------------- automaton

  predicate IsQuote(c: char) { c == '"' || c == '\'' }

  type Quote = c: char | IsQuote(c) witness '"'

  predicate IsCombinator(c: char) { c == '>' || c == '+' || c == '~' }

  /** Where a scanner stands: outside strings, inside one, or just after a backslash in one. */
  datatype Mode = Bare(depth: nat) | Quoted(depth: nat, quote: Quote) | Escaped(depth: nat, quote: Quote)

  const TOP := Bare(0)

  function Next(m: Mode, c: char): Mode {
    match m
    case Escaped(d, q) => Quoted(d, q)
    case Quoted(d, q) => if c == '\\' then Escaped(d, q) else if c == q then Bare(d) else m
    case Bare(d) =>
      if IsQuote(c) then Quoted(d, c)
      else if c == '(' || c == '[' then Bare(d + 1)
      else if c == ')' || c == ']' then Bare(if d == 0 then 0 else d - 1)
      else m
  }

  /** The mode after reading s in mode m. */
  function After(m: Mode, s: string): Mode
    decreases s
  {
    if s == [] then m else After(Next(m, s[0]), s[1..])
  }

  lemma {:induction false} AfterConcat(m: Mode, a: string, b: string)
    ensures After(m, a + b) == After(After(m, a), b)
    decreases a
  {
    if a == [] {
      assert a + b == b;
    } else {
      assert (a + b)[1..] == a[1..] + b;
      AfterConcat(Next(m, a[0]), a[1..], b);
    }
  }

  // ---------------------------------------------------------- the normaliser

  /** What the normaliser has printed: a core, then at most one pending space. */
  datatype Printed = Printed(core: string, gap: bool, mode: Mode) {
    function Text(): string { if gap then core + [' '] else core }
  }

  const START := Printed([], false, TOP)

  function Print(p: Printed, c: char): Printed {
    var m := Next(p.mode, c);
    if p.mode == TOP && IsSpace(c) then Printed(p.core, p.core != [], m)
    else if p.mode == TOP && IsCombinator(c) then Printed(p.core + [' '] + [c], true, m)
    else Printed(p.Text() + [c], false, m)
  }

  function Feed(p: Printed, s: string): Printed
    decreases s
  {
    if s == [] then p else Feed(Print(p, s[0]), s[1..])
  }

  function Normalize(s: string): string {
    Strip(Feed(START, s).Text())
  }

  lemma {:induction false} FeedConcat(p: Printed, a: string, b: string)
    ensures Feed(p, a + b) == Feed(Feed(p, a), b)
    decreases a
  {
    if a == [] {
      assert a + b == b;
    } else {
      assert (a + b)[1..] == a[1..] + b;
      FeedConcat(Print(p, a[0]), a[1..], b);
    }
  }

  lemma FeedOne(p: Printed, a: string, c: char)
    ensures Feed(p, a + [c]) == Print(Feed(p, a), c)
  {
    FeedConcat(p, a, [c]);
  }

  /** A pending space exists only at top level, after a core that ends visibly. */
  predicate Shaped(p: Printed) {
    && (p.gap ==> p.mode == TOP && p.core != [])
    && (p.mode == TOP && p.core != [] ==> !IsSpace(p.core[|p.core| - 1]))
  }

  /** A state that is reached again by reading its own text; reading only its core rebuilds the core. */
  predicate SelfPrinting(p: Printed) {
    && Shaped(p)
    && Feed(START, p.Text()) == p
    && Feed(START, p.core).mode == p.mode
    && Feed(START, p.core).core == p.core
  }

  predicate Stable(t: string) { Feed(START, t).core == t }

  predicate VisiblePrefixesStable(t: string) {
    forall k | 0 <= k <= |t| && (k == 0 || !IsSpace(t[k - 1])) :: Stable(t[..k])
  }

  lemma ReadSpace(t: string)
    requires Feed(START, t).core == t && Feed(START, t).mode == TOP
    ensures Feed(START, t + [' ']) == Printed(t, t != [], TOP)
  {
    FeedOne(START, t, ' ');
  }

  lemma ReadCombinator(t: string, c: char)
    requires Feed(START, t).core == t && Feed(START, t).mode == TOP && IsCombinator(c)
    ensures Feed(START, t + [' '] + [c]) == Printed(t + [' '] + [c], true, TOP)
  {
    ReadSpace(t);
    FeedOne(START, t + [' '], c);
  }

  lemma PrintKeepsShape(p: Printed, c: char)
    requires Shaped(p)
    ensures Shaped(Print(p, c))
  {
  }

  lemma PrintKeepsSelfPrinting(p: Printed, c: char)
    requires SelfPrinting(p)
    ensures SelfPrinting(Print(p, c))
  {
    PrintKeepsShape(p, c);
    if p.mode == TOP && IsSpace(c) {
      ReadSpace(p.core);
    } else if p.mode == TOP && IsCombinator(c) {
      CombinatorKeepsSelfPrinting(p, c);
    } else {
      FeedOne(START, p.Text(), c);
    }
  }

  lemma CombinatorKeepsSelfPrinting(p: Printed, c: char)
    requires SelfPrinting(p) && p.mode == TOP && IsCombinator(c)
    ensures SelfPrinting(Print(p, c))
  {
    PrintKeepsShape(p, c);
    ReadCombinator(p.core, c);
    ReadSpace(p.core + [' '] + [c]);
  }

  lemma PrintKeepsVisiblePrefixes(p: Printed, c: char)
    requires SelfPrinting(p) && VisiblePrefixesStable(p.core)
    ensures VisiblePrefixesStable(Print(p, c).core)
  {
    PrintKeepsSelfPrinting(p, c);
    var grown := Print(p, c).core;
    forall k | 0 <= k <= |grown| && (k == 0 || !IsSpace(grown[k - 1]))
      ensures Stable(grown[..k])
    {
      if k <= |p.core| {
        assert grown[..k] == p.core[..k];
      } else {
        assert grown[..k] == grown;
      }
    }
  }

  /** Everything printed prints as itself, and so does each prefix of it that ends visibly. */
  lemma {:induction false} FeedKeepsSelfPrinting(p: Printed, s: string)
    requires SelfPrinting(p) && VisiblePrefixesStable(p.core)
    ensures SelfPrinting(Feed(p, s)) && VisiblePrefixesStable(Feed(p, s).core)
    decreases s
  {
    if s != [] {
      PrintKeepsSelfPrinting(p, s[0]);
      PrintKeepsVisiblePrefixes(p, s[0]);
      FeedKeepsSelfPrinting(Print(p, s[0]), s[1..]);
    }
  }

  /** The printer tracks the automaton that the splitter uses. */
  lemma {:induction false} FeedTracksMode(p: Printed, s: string)
    ensures Feed(p, s).mode == After(p.mode, s)
    decreases s
  {
    if s != [] {
      FeedTracksMode(Print(p, s[0]), s[1..]);
    }
  }

  /** Leading whitespace is invisible. */
  lemma {:induction false} LeadingSpace(w: string, s: string)
    requires AllSpace(w)
    ensures Feed(START, w + s) == Feed(START, s)
    ensures After(TOP, w + s) == After(TOP, s)
  {
    if w == [] {
      assert w + s == s;
    } else {
      assert (w + s)[1..] == w[1..] + s;
      LeadingSpace(w[1..], s);
      assert IsSpace(w[0]) && Print(START, w[0]) == START;
    }
  }

  /** The output is the core without its outer whitespace, and reads back like the right-trimmed core. */
  lemma NormalizedIsCore(s: string) returns (t: string, w: string, v: string)
    ensures t == TrimRight(Feed(START, s).core) && Feed(START, s).core == t + v && AllSpace(v)
    ensures t != [] ==> !IsSpace(t[|t| - 1])
    ensures Normalize(s) == TrimLeft(t) && t == w + Normalize(s) && AllSpace(w)
    ensures Stable(t) && Feed(START, Normalize(s)) == Feed(START, t)
  {
    var p := Feed(START, s);
    FeedKeepsSelfPrinting(START, s);
    t := TrimRight(p.core);
    v := TrimRightSplit(p.core);
    assert p.core[..|t|] == t;
    if p.gap {
      TrimRightOfPadded(p.core, [' ']);
    }
    w := TrimLeftSplit(t);
    LeadingSpace(w, TrimLeft(t));
  }

  /** Normalising twice changes nothing. */
  lemma NormalizeIdempotent(s: string)
    ensures Normalize(Normalize(s)) == Normalize(s)
  {
    var t, _, _ := NormalizedIsCore(s);
    if Feed(START, t).gap {
      TrimRightOfPadded(t, [' ']);
    }
    assert TrimRight(t) == t;
  }

  /** Normalising keeps every visible character, in order. */
  lemma NormalizeKeepsVisible(s: string)
    ensures Visible(Normalize(s)) == Visible(s)
  {
    FeedKeepsVisible(START, s);
    VisibleOfStrip(Feed(START, s).Text());
    assert [] + Visible(s) == Visible(s);
  }

  lemma {:induction false} FeedKeepsVisible(p: Printed, s: string)
    ensures Visible(Feed(p, s).Text()) == Visible(p.Text()) + Visible(s)
    decreases s
  {
    if s != [] {
      FeedKeepsVisible(Print(p, s[0]), s[1..]);
      PrintKeepsVisible(p, s[0]);
      assert s == [s[0]] + s[1..];
      VisibleConcat([s[0]], s[1..]);
    }
  }

  lemma PrintKeepsVisible(p: Printed, c: char)
    ensures Visible(Print(p, c).Text()) == Visible(p.Text()) + Visible([c])
  {
    VisibleConcat(p.core, [' ']);
    if p.mode == TOP && IsSpace(c) {
    } else if p.mode == TOP && IsCombinator(c) {
      var spaced := p.core + [' '];
      VisibleConcat(spaced, [c]);
      VisibleConcat(spaced + [c], [' ']);
    } else {
      VisibleConcat(p.Text(), [c]);
    }
  }

  // ------------------------------------------------ normal forms are canonical

  /** Whitespace v, standing between a and b, respelled as w. */
  datatype Respelling = Respelling(a: string, v: string, w: string, b: string) {
    function From(): string { a + v + b }

    function To(): string { a + w + b }

    /** The respelling is harmless whatever follows b: it stands at top level at the very start, */
    /** next to a combinator, or both spellings are non-empty. */
    predicate Anchored() {
      && AllSpace(v) && AllSpace(w) && After(TOP, a) == TOP
      && (|| a == [] || IsCombinator(a[|a| - 1])
          || (b != [] && IsCombinator(b[0]))
          || (v != [] && w != []))
    }

    /** The respelling is harmless here: anchored, or at the very end. */
    predicate Insignificant() {
      Anchored() || (AllSpace(v) && AllSpace(w) && b == [])
    }
  }

  /** The steps lead from s to t; none of them relies on trailing when anchored is asked for. */
  predicate Leads(anchored: bool, steps: seq<Respelling>, s: string, t: string)
    decreases steps
  {
    if steps == [] then s == t
    else && (if anchored then steps[0].Anchored() else steps[0].Insignificant())
         && s == steps[0].From() && Leads(anchored, steps[1..], steps[0].To(), t)
  }

  /** Two texts that differ only by a series of whitespace respellings. */
  ghost predicate SameSelector(s: string, t: string) {
    exists steps :: Leads(false, steps, s, t)
  }

  lemma {:induction false} LeadsOn(
    anchored: bool, m: seq<Respelling>, n: seq<Respelling>, s: string, t: string, u: string)
    requires Leads(anchored, m, s, t) && Leads(anchored, n, t, u)
    ensures Leads(anchored, m + n, s, u)
    decreases m
  {
    if m == [] {
      assert m + n == n;
    } else {
      assert (m + n)[1..] == m[1..] + n;
      LeadsOn(anchored, m[1..], n, m[0].To(), t, u);
    }
  }

  lemma LeadsOne(anchored: bool, x: Respelling)
    requires x.Anchored() || (!anchored && x.Insignificant())
    ensures Leads(anchored, [x], x.From(), x.To())
  {
  }

  lemma {:induction false} LeadsBack(steps: seq<Respelling>, s: string, t: string) returns (back: seq<Respelling>)
    requires Leads(false, steps, s, t)
    ensures Leads(false, back, t, s)
    decreases steps
  {
    if steps == [] {
      back := [];
    } else {
      var x := steps[0];
      var rest := LeadsBack(steps[1..], x.To(), t);
      var last := [Respelling(x.a, x.w, x.v, x.b)];
      LeadsOne(false, last[0]);
      LeadsOn(false, rest, last, t, x.To(), s);
      back := rest + last;
    }
  }

  lemma {:induction false} SpacesAtTop(p: Printed, v: string)
    requires Shaped(p) && p.mode == TOP && AllSpace(v)
    ensures Feed(p, v) == if v == [] then p else Printed(p.core, p.core != [], TOP)
    decreases v
  {
    if v != [] {
      assert IsSpace(v[0]);
      SpacesAtTop(Print(p, v[0]), v[1..]);
    }
  }

  lemma {:induction false} TrailingSpace(p: Printed, v: string)
    requires AllSpace(v)
    ensures Strip(Feed(p, v).Text()) == Strip(p.Text())
    decreases v
  {
    if v != [] {
      assert IsSpace(v[0]);
      TrailingSpace(Print(p, v[0]), v[1..]);
      TrailingSpaceStep(p, v[0]);
    }
  }

  lemma TrailingSpaceStep(p: Printed, c: char)
    requires IsSpace(c)
    ensures Strip(Print(p, c).Text()) == Strip(p.Text())
  {
    TrimRightOfPadded(p.core, [' ']);
    if p.mode != TOP {
      TrimRightOfPadded(p.Text(), [c]);
    }
  }

  lemma OnlyTopStays(m: Mode, c: char)
    requires Next(m, c) == TOP && IsCombinator(c)
    ensures m == TOP
  {
  }

  lemma AfterOne(m: Mode, a: string, c: char)
    ensures After(m, a + [c]) == Next(After(m, a), c)
  {
    AfterConcat(m, a, [c]);
  }

  /** A combinator read at top level leaves one space pending. */
  lemma LastCombinator(a: string)
    requires a != [] && After(TOP, a) == TOP && IsCombinator(a[|a| - 1])
    ensures Feed(START, a).core != [] && Feed(START, a).gap
  {
    var a', c := a[..|a| - 1], a[|a| - 1];
    assert a == a' + [c];
    AfterOne(TOP, a', c);
    OnlyTopStays(After(TOP, a'), c);
    hide After, Feed;
    FeedTracksMode(START, a');
    FeedOne(START, a', c);
  }

  /** Anchored respellings leave the printer in the same state. */
  lemma AnchoredIsInvisible(x: Respelling)
    requires x.Anchored() && x.b != []
    ensures Feed(Feed(START, x.a), x.v + x.b) == Feed(Feed(START, x.a), x.w + x.b)
  {
    var p := Feed(START, x.a);
    FeedTracksMode(START, x.a);
    ShapeOf(x.a);
    FeedConcat(p, x.v, x.b);
    FeedConcat(p, x.w, x.b);
    SpacesAtTop(p, x.v);
    SpacesAtTop(p, x.w);
    if x.a != [] && IsCombinator(x.a[|x.a| - 1]) {
      LastCombinator(x.a);
    } else if x.a != [] && IsCombinator(x.b[0]) {
      CombinatorForgets(Feed(p, x.v), Feed(p, x.w), x.b[0]);
    }
  }

  lemma ShapeOf(a: string)
    ensures Shaped(Feed(START, a))
  {
    FeedKeepsSelfPrinting(START, a);
  }

  /** A combinator does not see whether a space was pending. */
  lemma CombinatorForgets(p: Printed, q: Printed, c: char)
    requires p.core == q.core && p.mode == q.mode == TOP && IsCombinator(c)
    ensures Print(p, c) == Print(q, c)
  {
  }

  lemma RespellingIsInvisible(x: Respelling)
    requires x.Insignificant()
    ensures Normalize(x.From()) == Normalize(x.To())
  {
    assert x.From() == x.a + (x.v + x.b) && x.To() == x.a + (x.w + x.b);
    FeedConcat(START, x.a, x.v + x.b);
    FeedConcat(START, x.a, x.w + x.b);
    if x.b == [] {
      assert x.v + x.b == x.v && x.w + x.b == x.w;
      TrailingSpace(Feed(START, x.a), x.v);
      TrailingSpace(Feed(START, x.a), x.w);
    } else {
      AnchoredIsInvisible(x);
    }
  }

  lemma {:induction false} LeadsKeepsNormalForm(steps: seq<Respelling>, s: string, t: string)
    requires Leads(false, steps, s, t)
    ensures Normalize(s) == Normalize(t)
    decreases steps
  {
    if steps != [] {
      RespellingIsInvisible(steps[0]);
      LeadsKeepsNormalForm(steps[1..], steps[0].To(), t);
    }
  }

  /** Anchored respellings survive more text on the right. */
  lemma {:induction false} LeadsExtends(steps: seq<Respelling>, s: string, t: string, c: string)
    returns (longer: seq<Respelling>)
    requires Leads(true, steps, s, t)
    ensures Leads(true, longer, s + c, t + c)
    decreases steps
  {
    if steps == [] {
      longer := [];
    } else {
      var x := steps[0];
      var y := Respelling(x.a, x.v, x.w, x.b + c);
      assert x.From() + c == y.From() && x.To() + c == y.To();
      var rest := LeadsExtends(steps[1..], x.To(), t, c);
      longer := [y] + rest;
      assert longer[1..] == rest;
    }
  }

  lemma {:induction false} AnchoredLeads(steps: seq<Respelling>, s: string, t: string)
    requires Leads(true, steps, s, t)
    ensures Leads(false, steps, s, t)
    decreases steps
  {
    if steps != [] {
      AnchoredLeads(steps[1..], steps[0].To(), t);
    }
  }

  /** What the printer does with one character is at most two anchored respellings. */
  lemma PrintRespells(p: Printed, c: char) returns (steps: seq<Respelling>)
    requires SelfPrinting(p)
    ensures Leads(true, steps, p.Text() + [c], Print(p, c).Text())
  {
    if p.mode == TOP && IsSpace(c) {
      FeedTracksMode(START, p.core);
      var v := if p.gap then [' '] else [];
      var x := Respelling(p.core, v + [c], if p.core == [] then [] else [' '], []);
      assert p.Text() + [c] == x.From() && Print(p, c).Text() == x.To();
      LeadsOne(true, x);
      steps := [x];
    } else if p.mode == TOP && IsCombinator(c) {
      steps := CombinatorRespells(p, c);
    } else {
      steps := [];
    }
  }

  lemma CombinatorRespells(p: Printed, c: char) returns (steps: seq<Respelling>)
    requires SelfPrinting(p) && p.mode == TOP && IsCombinator(c)
    ensures Leads(true, steps, p.Text() + [c], Print(p, c).Text())
  {
    FeedTracksMode(START, p.core);
    var v := if p.gap then [' '] else [];
    var u := p.core + [' '] + [c];
    var x, y := Respelling(p.core, v, [' '], [c]), Respelling(u, [], [' '], []);
    assert x.From() == p.Text() + [c] && x.To() == u;
    assert y.From() == u && y.To() == Print(p, c).Text();
    assert After(TOP, u) == TOP by {
      ReadCombinator(p.core, c);
      FeedTracksMode(START, u);
    }
    LeadsOne(true, x);
    LeadsOne(true, y);
    LeadsOn(true, [x], [y], x.From(), u, y.To());
    steps := [x] + [y];
  }

  lemma Uncons(t: string, s: string)
    requires s != []
    ensures t + [s[0]] + s[1..] == t + s
  {
  }

  lemma {:induction false} FeedRespells(p: Printed, s: string) returns (steps: seq<Respelling>)
    requires SelfPrinting(p)
    ensures Leads(true, steps, p.Text() + s, Feed(p, s).Text())
    decreases s
  {
    if s == [] {
      assert p.Text() + s == p.Text();
      steps := [];
    } else {
      var q := Print(p, s[0]);
      PrintKeepsSelfPrinting(p, s[0]);
      var one := PrintRespells(p, s[0]);
      var first := LeadsExtends(one, p.Text() + [s[0]], q.Text(), s[1..]);
      var rest := FeedRespells(q, s[1..]);
      Uncons(p.Text(), s);
      LeadsOn(true, first, rest, p.Text() + s, q.Text() + s[1..], Feed(p, s).Text());
      steps := first + rest;
    }
  }

  lemma StripRespells(s: string) returns (steps: seq<Respelling>)
    ensures Leads(false, steps, s, Strip(s))
  {
    var t := TrimRight(s);
    var r := TrimLeft(t);
    var v := TrimRightSplit(s);
    var w := TrimLeftSplit(t);
    hide TrimLeft, TrimRight, Leads;
    var x, y := Respelling(t, v, [], []), Respelling([], w, [], r);
    assert x.From() == s && x.To() == t && y.From() == t && y.To() == r;
    LeadsOne(false, x);
    LeadsOne(false, y);
    LeadsOn(false, [x], [y], s, t, r);
    steps := [x] + [y];
  }

  /** Every text is a respelling of its normal form. */
  lemma NormalFormIsSameSelector(s: string) returns (steps: seq<Respelling>)
    ensures Leads(false, steps, s, Normalize(s))
  {
    var first := FeedRespells(START, s);
    assert START.Text() + s == s;
    var t := Feed(START, s).Text();
    AnchoredLeads(first, s, t);
    var rest := StripRespells(t);
    LeadsOn(false, first, rest, s, t, Strip(t));
    steps := first + rest;
  }

  /** Two selectors get the same normal form exactly when they differ by insignificant whitespace. */
  lemma NormalizeIsCanonical(s: string, t: string)
    ensures Normalize(s) == Normalize(t) <==> SameSelector(s, t)
  {
    if Normalize(s) == Normalize(t) {
      var out := NormalFormIsSameSelector(s);
      var other := NormalFormIsSameSelector(t);
      var back := LeadsBack(other, t, Normalize(t));
      LeadsOn(false, out, back, s, Normalize(s), t);
    }
    if SameSelector(s, t) {
      var steps :| Leads(false, steps, s, t);
      LeadsKeepsNormalForm(steps, s, t);
    }
  }

  /** Whatever whitespace surrounds a top-level combinator, the normal form is the same. */
  lemma CombinatorPadding(a: string, v: string, w: string, v': string, w': string, c: char, b: string)
    requires After(TOP, a) == TOP && IsCombinator(c)
    requires AllSpace(v) && AllSpace(w) && AllSpace(v') && AllSpace(w')
    ensures Normalize(a + v + ([c] + w + b)) == Normalize((a + v' + [c]) + w' + b)
  {
    var x, y := Respelling(a, v, v', [c] + w + b), Respelling(a + v' + [c], w, w', b);
    Regroup(a, v', [c], w, b);
    CombinatorKeepsTop(a, v', c);
    RespellingIsInvisible(x);
    RespellingIsInvisible(y);
  }

  lemma Regroup(a: string, v: string, c: string, w: string, b: string)
    ensures a + v + (c + w + b) == (a + v + c) + w + b
  {
  }

  lemma CombinatorKeepsTop(a: string, v: string, c: char)
    requires After(TOP, a) == TOP && AllSpace(v) && IsCombinator(c)
    ensures After(TOP, a + v + [c]) == TOP
  {
    SpacesKeepTop(v);
    AfterConcat(TOP, a + v, [c]);
    AfterConcat(TOP, a, v);
  }

  lemma {:induction false} SpacesKeepTop(v: string)
    requires AllSpace(v)
    ensures After(TOP, v) == TOP
  {
    if v != [] {
      assert IsSpace(v[0]);
      SpacesKeepTop(v[1..]);
    }
  }

  // ------------------------------------------------------------- the splitter

  /** Read in mode m, no comma of s is a separator. */
  predicate NoTopComma(m: Mode, s: string)
    decreases s
  {
    s == [] || (!(m == TOP && s[0] == ',') && NoTopComma(Next(m, s[0]), s[1..]))
  }

  /** The texts between separators, when buf has been read since the last one. */
  function Cut(m: Mode, buf: string, s: string): seq<string>
    decreases s
  {
    if s == [] then [buf]
    else if m == TOP && s[0] == ',' then [buf] + Cut(m, [], s[1..])
    else Cut(Next(m, s[0]), buf + [s[0]], s[1..])
  }

  function RawParts(prelude: string): seq<string> { Cut(TOP, [], prelude) }

  /** No part holds a separator and every part but the last ends at top level. */
  predicate WellCut(parts: seq<string>) {
    && parts != [] && NoTopComma(TOP, parts[0])
    && (|parts| > 1 ==> After(TOP, parts[0]) == TOP && WellCut(parts[1..]))
  }

  lemma {:induction false} NoTopCommaConcat(m: Mode, a: string, b: string)
    ensures NoTopComma(m, a + b) <==> NoTopComma(m, a) && NoTopComma(After(m, a), b)
    decreases a
  {
    if a == [] {
      assert a + b == b;
    } else {
      assert (a + b)[1..] == a[1..] + b;
      NoTopCommaConcat(Next(m, a[0]), a[1..], b);
    }
  }

  lemma {:induction false} CutJoins(m: Mode, buf: string, s: string)
    ensures Cut(m, buf, s) != [] && Join(",", Cut(m, buf, s)) == buf + s
    decreases s
  {
    if s != [] {
      Uncons(buf, s);
      if m == TOP && s[0] == ',' {
        CutJoins(m, [], s[1..]);
        var rest := Cut(m, [], s[1..]);
        assert ([buf] + rest)[1..] == rest;
        assert [] + s[1..] == s[1..];
      } else {
        CutJoins(Next(m, s[0]), buf + [s[0]], s[1..]);
      }
    }
  }

  lemma {:induction false} CutIsWellCut(m: Mode, buf: string, s: string)
    requires After(TOP, buf) == m && NoTopComma(TOP, buf)
    ensures WellCut(Cut(m, buf, s))
    decreases s
  {
    if s != [] {
      if m == TOP && s[0] == ',' {
        CutIsWellCut(m, [], s[1..]);
        var rest := Cut(m, [], s[1..]);
        assert ([buf] + rest)[1..] == rest;
      } else {
        AfterConcat(TOP, buf, [s[0]]);
        NoTopCommaConcat(TOP, buf, [s[0]]);
        CutIsWellCut(Next(m, s[0]), buf + [s[0]], s[1..]);
      }
    }
  }

  lemma {:induction false} CutThrough(m: Mode, buf: string, a: string, b: string)
    requires NoTopComma(m, a)
    ensures Cut(m, buf, a + b) == Cut(After(m, a), buf + a, b)
    decreases a
  {
    if a == [] {
      assert a + b == b && buf + a == buf;
    } else {
      assert (a + b)[1..] == a[1..] + b;
      Uncons(buf, a);
      CutThrough(Next(m, a[0]), buf + [a[0]], a[1..], b);
    }
  }

  lemma {:induction false} CutOfJoin(parts: seq<string>)
    requires WellCut(parts)
    ensures RawParts(Join(",", parts)) == parts
  {
    var a := parts[0];
    assert [] + a == a && a + [] == a;
    if |parts| == 1 {
      CutThrough(TOP, [], a, []);
    } else {
      var rest := Join(",", parts[1..]);
      CutOfJoin(parts[1..]);
      CutThrough(TOP, [], a, "," + rest);
      assert a + "," + rest == a + ("," + rest);
      assert ("," + rest)[1..] == rest;
      assert parts == [a] + parts[1..];
    }
  }

  /** The raw parts are the one way to cut a prelude at its separators; joining them gives it back. */
  lemma RawPartsCharacterised(prelude: string, parts: seq<string>)
    ensures parts == RawParts(prelude) <==> WellCut(parts) && Join(",", parts) == prelude
  {
    if parts == RawParts(prelude) {
      CutIsWellCut(TOP, [], prelude);
      CutJoins(TOP, [], prelude);
      assert [] + prelude == prelude;
    }
    if WellCut(parts) && Join(",", parts) == prelude {
      CutOfJoin(parts);
    }
  }

  /** The normal forms of the parts, blank ones dropped. */
  function Keep(parts: seq<string>): seq<string> {
    if parts == [] then []
    else
      var q, rest := Normalize(parts[0]), Keep(parts[1..]);
      if q == [] then rest else [q] + rest
  }

  function SplitList(prelude: string): seq<string> { Keep(RawParts(prelude)) }

  /** Normal forms that can be listed: none blank, no separators inside, all but the last closed. */
  predicate Listed(qs: seq<string>) {
    qs == [] ||
    (&& qs[0] != [] && Normalize(qs[0]) == qs[0] && NoTopComma(TOP, qs[0])
     && (|qs| > 1 ==> After(TOP, qs[0]) == TOP)
     && Listed(qs[1..]))
  }

  /** Printing creates no separator. */
  lemma {:induction false} FeedKeepsCommas(p: Printed, s: string)
    requires SelfPrinting(p) && NoTopComma(TOP, p.core) && NoTopComma(p.mode, s)
    ensures NoTopComma(TOP, Feed(p, s).core)
    decreases s
  {
    if s != [] {
      PrintKeepsSelfPrinting(p, s[0]);
      PrintKeepsCommas(p, s[0]);
      FeedKeepsCommas(Print(p, s[0]), s[1..]);
    }
  }

  lemma PrintKeepsCommas(p: Printed, c: char)
    requires SelfPrinting(p) && NoTopComma(TOP, p.core) && !(p.mode == TOP && c == ',')
    ensures NoTopComma(TOP, Print(p, c).core)
  {
    NoTopCommaConcat(TOP, p.core, [' ']);
    FeedTracksMode(START, p.Text());
    if p.mode == TOP && IsSpace(c) {
    } else if p.mode == TOP && IsCombinator(c) {
      NoTopCommaConcat(TOP, p.core + [' '], [c]);
    } else {
      NoTopCommaConcat(TOP, p.Text(), [c]);
    }
  }

  /** A part and its normal form agree on having no separator and on ending at top level. */
  lemma NormalizeKeepsCut(s: string)
    requires NoTopComma(TOP, s)
    ensures NoTopComma(TOP, Normalize(s))
    ensures After(TOP, s) == TOP ==> After(TOP, Normalize(s)) == TOP
  {
    var t, w, v := NormalizedIsCore(s);
    FeedKeepsCommas(START, s);
    NoTopCommaConcat(TOP, t, v);
    NoTopCommaConcat(TOP, w, Normalize(s));
    SpacesKeepTop(w);
    if After(TOP, s) == TOP {
      FeedTracksMode(START, s);
      FeedTracksMode(START, t);
      FeedTracksMode(START, Normalize(s));
      FeedKeepsSelfPrinting(START, s);
      ClosedCore(Feed(START, s), t, v);
    }
  }

  /** At top level a core has no trailing whitespace to lose. */
  lemma ClosedCore(p: Printed, t: string, v: string)
    requires Shaped(p) && p.mode == TOP && p.core == t + v && AllSpace(v)
    ensures p.core == t
  {
    if v != [] {
      LastOf(t, v);
    }
  }

  lemma LastOf(t: string, v: string)
    requires v != []
    ensures (t + v)[|t + v| - 1] == v[|v| - 1]
  {
  }

  lemma {:induction false} KeepIsListed(parts: seq<string>)
    requires WellCut(parts)
    ensures Listed(Keep(parts))
  {
    var q := Normalize(parts[0]);
    NormalizeKeepsCut(parts[0]);
    NormalizeIdempotent(parts[0]);
    if |parts| > 1 {
      KeepIsListed(parts[1..]);
    } else {
      assert Keep(parts[1..]) == [];
    }
    if q != [] {
      assert Keep(parts)[1..] == Keep(parts[1..]);
    }
  }

  function Indented(qs: seq<string>): seq<string> {
    if qs == [] then [] else [" " + qs[0]] + Indented(qs[1..])
  }

  lemma {:induction false} JoinIndented(qs: seq<string>)
    requires qs != []
    ensures Join(",", Indented(qs)) == " " + Join(", ", qs)
  {
    assert Indented(qs)[1..] == Indented(qs[1..]);
    if |qs| > 1 {
      JoinIndented(qs[1..]);
      Reindent(qs[0], Join(", ", qs[1..]));
    }
  }

  lemma Reindent(a: string, b: string)
    ensures " " + a + "," + (" " + b) == " " + (a + ", " + b)
  {
  }

  lemma {:induction false} IndentedCut(qs: seq<string>)
    ensures qs != [] ==> WellCut(Indented(qs)) == WellCut(qs)
    ensures Keep(Indented(qs)) == Keep(qs)
  {
    if qs != [] {
      IndentedHead(qs[0]);
      assert Indented(qs)[1..] == Indented(qs[1..]);
      IndentedCut(qs[1..]);
    }
  }

  lemma IndentedHead(q: string)
    ensures Normalize(" " + q) == Normalize(q)
    ensures NoTopComma(TOP, " " + q) == NoTopComma(TOP, q)
    ensures After(TOP, " " + q) == After(TOP, q)
  {
    LeadingSpace(" ", q);
    NoTopCommaConcat(TOP, " ", q);
  }

  lemma {:induction false} ListedIsKept(qs: seq<string>)
    requires Listed(qs)
    ensures Keep(qs) == qs && (qs != [] ==> WellCut(qs))
  {
    if qs != [] {
      ListedIsKept(qs[1..]);
    }
  }

  /** Printing a split selector list and splitting it again gives the same list. */
  lemma SplitOfPrinted(prelude: string)
    ensures SplitList(Join(", ", SplitList(prelude))) == SplitList(prelude)
  {
    var qs := SplitList(prelude);
    RawPartsCharacterised(prelude, RawParts(prelude));
    KeepIsListed(RawParts(prelude));
    ListedIsKept(qs);
    if qs == [] {
      assert RawParts([]) == [[]];
    } else {
      JoinIndented(qs);
      IndentedCut(qs);
      CutOfJoin(Indented(qs));
      var text := Join(", ", qs);
      FirstIndent(text);
    }
  }

  /** A leading space only changes the first raw part, and not its normal form. */
  lemma FirstIndent(text: string)
    ensures SplitList(" " + text) == SplitList(text)
  {
    var parts := RawParts(text);
    RawPartsCharacterised(text, parts);
    hide Normalize, After, NoTopComma, RawParts;
    var indented := [" " + parts[0]] + parts[1..];
    IndentedHead(parts[0]);
    assert indented[1..] == parts[1..];
    if |parts| > 1 {
      assert " " + (parts[0] + "," + Join(",", parts[1..])) == " " + parts[0] + "," + Join(",", parts[1..]);
    }
    CutOfJoin(indented);
  }

  // ----------------------------------------------------------- the code itself

  function ModeOf(depth: nat, quote: Option<Quote>): Mode {
    match quote case None => Bare(depth) case Some(q) => Quoted(depth, q)
  }

  lemma FeedStep(p: Printed, s: string, i: nat)
    requires i < |s|
    ensures Feed(p, s[i..]) == Feed(Print(p, s[i]), s[i + 1..])
  {
    assert s[i..][1..] == s[i + 1..];
  }

  /** Most characters are copied: all but whitespace and combinators at top level. */
  lemma PrintCopies(p: Printed, c: char)
    requires Shaped(p) && !(p.mode == TOP && (IsSpace(c) || IsCombinator(c)))
    ensures Shaped(Print(p, c)) && Print(p, c).Text() == p.Text() + [c] && Print(p, c).mode == Next(p.mode, c)
  {
    PrintKeepsShape(p, c);
  }

  /** Whitespace at top level leaves at most one space, and none at the start. */
  lemma PrintSpace(p: Printed, c: char)
    requires Shaped(p) && p.mode == TOP && IsSpace(c)
    ensures Shaped(Print(p, c)) && Print(p, c).mode == TOP
    ensures var t := p.Text();
      Print(p, c).Text() == if t != [] && !IsSpace(t[|t| - 1]) then t + [' '] else t
  {
    PrintKeepsShape(p, c);
  }

  /** A combinator at top level gets one space on either side, whatever spaces came before. */
  lemma PrintCombinator(p: Printed, c: char, kept: string)
    requires Shaped(p) && p.mode == TOP && IsCombinator(c)
    requires kept <= p.Text() && (kept == [] || kept[|kept| - 1] != ' ')
    requires forall i | |kept| <= i < |p.Text()| :: p.Text()[i] == ' '
    ensures Shaped(Print(p, c)) && Print(p, c).mode == TOP
    ensures Print(p, c).Text() == kept + [' '] + [c] + [' ']
  {
    PrintKeepsShape(p, c);
    var t := p.Text();
    assert p.core != [] ==> t[|p.core| - 1] != ' ';
    assert |kept| == |p.core|;
    assert kept == t[..|kept|] == p.core;
  }

  /** Drop the spaces at the end. */
  method PopSpaces(text: string) returns (kept: string)
    ensures kept <= text && (kept == [] || kept[|kept| - 1] != ' ')
    ensures forall i | |kept| <= i < |text| :: text[i] == ' '
  {
    kept := text;
    while kept != [] && kept[|kept| - 1] == ' '
      invariant kept <= text
      invariant forall i | |kept| <= i < |text| :: text[i] == ' '
    {
      kept := kept[..|kept| - 1];
    }
  }

  method NormalizeSelector(selector: string) returns (r: string)
    ensures r == Normalize(selector)
  {
    hide Feed, Print, Shaped, Strip;
    var out: string := [];
    var depth: nat := 0;
    var quote: Option<Quote> := None;
    var i := 0;
    ghost var p := START;
    assert selector[0..] == selector;
    assert Shaped(START) by { StartIsShaped(); }
    while i < |selector|
      invariant i <= |selector|
      invariant Feed(START, selector) == Feed(p, selector[i..])
      invariant Shaped(p) && out == p.Text()
      invariant i < |selector| ==> p.mode == ModeOf(depth, quote)
    {
      var ch := selector[i];
      FeedStep(p, selector, i);
      ghost var next := Print(p, ch);
      if quote.Some? {
        PrintCopies(p, ch);
        out := out + [ch];
        if ch == '\\' && i + 1 < |selector| {
          FeedStep(next, selector, i + 1);
          PrintCopies(next, selector[i + 1]);
          out := out + [selector[i + 1]];
          p := Print(next, selector[i + 1]);
          i := i + 2;
          continue;
        }
        if ch == quote.value {
          quote := None;
        }
      } else if IsQuote(ch) {
        PrintCopies(p, ch);
        quote := Some(ch);
        out := out + [ch];
      } else if ch == '(' || ch == '[' {
        PrintCopies(p, ch);
        depth := depth + 1;
        out := out + [ch];
      } else if ch == ')' || ch == ']' {
        PrintCopies(p, ch);
        depth := if depth == 0 then 0 else depth - 1;
        out := out + [ch];
      } else if depth == 0 && IsSpace(ch) {
        PrintSpace(p, ch);
        if out != [] && !IsSpace(out[|out| - 1]) {
          out := out + [' '];
        }
      } else if depth == 0 && IsCombinator(ch) {
        out := PopSpaces(out);
        PrintCombinator(p, ch, out);
        out := out + [' '] + [ch] + [' '];
      } else {
        PrintCopies(p, ch);
        out := out + [ch];
      }
      p := next;
      i := i + 1;
    }
    assert selector[i..] == [];
    FedNothing(p);
    r := Strip(out);
  }

  lemma StartIsShaped()
    ensures Shaped(START) && START.Text() == []
  {
  }

  lemma FedNothing(p: Printed)
    ensures Feed(p, []) == p
  {
  }

  method SplitSelectorList(prelude: string) returns (r: seq<string>)
    ensures r == SplitList(prelude)
  {
    var parts: seq<string> := [];
    var buf: string := [];
    var depth: nat := 0;
    var quote: Option<Quote> := None;
    var i := 0;
    ghost var m := TOP;
    while i < |prelude|
      invariant i <= |prelude|
      invariant RawParts(prelude) == parts + Cut(m, buf, prelude[i..])
      invariant i < |prelude| ==> m == ModeOf(depth, quote)
    {
      var ch := prelude[i];
      if quote.Some? {
        buf := buf + [ch];
        if ch == '\\' && i + 1 < |prelude| {
          buf := buf + [prelude[i + 1]];
          i := i + 2;
          continue;
        }
        if ch == quote.value {
          quote := None;
        }
      } else if IsQuote(ch) {
        quote := Some(ch);
        buf := buf + [ch];
      } else if ch == '(' || ch == '[' {
        depth := depth + 1;
        buf := buf + [ch];
      } else if ch == ')' || ch == ']' {
        depth := if depth == 0 then 0 else depth - 1;
        buf := buf + [ch];
      } else if ch == ',' && depth == 0 {
        parts := parts + [buf];
        buf := [];
      } else {
        buf := buf + [ch];
      }
      m := Next(m, ch);
      i := i + 1;
    }
    r := KeepNonBlank(parts + [buf]);
  }

  method KeepNonBlank(parts: seq<string>) returns (r: seq<string>)
    ensures r == Keep(parts)
  {
    hide Normalize;
    r := [];
    for k := 0 to |parts|
      invariant Keep(parts) == r + Keep(parts[k..])
    {
      var p := NormalizeSelector(parts[k]);
      if p != [] {
        r := r + [p];
      }
      assert parts[k..][1..] == parts[k + 1..];
    }
  }
}
