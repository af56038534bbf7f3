/**
 * Stylesheets: the block scanner of the shadowing gate.  One index loop skips
 * comments, copies strings whole and keeps a stack of enclosing preludes; it
 * is shown to report the selectors of the block tree the text spells.
 */
module CssSheet {
  import opened Text
  import opened CssSelectors

  // ------------------------------------------------------------------- tokens

  datatype Token = Comment(text: string) | Str(text: string) | Open | Close | Semi | Plain(c: char) {
    function Text(): string {
      match this
      case Comment(t) => t
      case Str(t) => t
      case Open => "{"
      case Close => "}"
      case Semi => ";"
      case Plain(c) => [c]
    }

    predicate Inline() { Comment? || Str? || Plain? }
  }

  /** Where the first star-slash at or after k ends, or the end of the text. */
  function CommentEnd(s: string, k: nat): (n: nat)
    requires k <= |s|
    ensures k <= n <= |s|
    decreases |s| - k
  {
    if k + 1 >= |s| then |s|
    else if s[k] == '*' && s[k + 1] == '/' then k + 2
    else CommentEnd(s, k + 1)
  }

  /** Where the string whose body starts at k ends, or the end of the text. */
  function StringEnd(s: string, q: char, k: nat): (n: nat)
    ensures n <= |s| && (k < |s| ==> k < n)
    decreases |s| - k
  {
    if k >= |s| then |s|
    else if s[k] == '\\' then StringEnd(s, q, k + 2)
    else if s[k] == q then k + 1
    else StringEnd(s, q, k + 1)
  }

  predicate StartsComment(s: string) { |s| >= 2 && s[0] == '/' && s[1] == '*' }

  function FirstToken(s: string): (t: Token)
    requires s != []
    ensures t.Text() <= s && t.Text() != []
  {
    if StartsComment(s) then Comment(s[..CommentEnd(s, 2)])
    else if IsQuote(s[0]) then Str(s[..StringEnd(s, s[0], 1)])
    else if s[0] == '{' then Open
    else if s[0] == '}' then Close
    else if s[0] == ';' then Semi
    else Plain(s[0])
  }

  function Tokens(s: string): seq<Token> {
    if s == [] then [] else
      var t := FirstToken(s);
      [t] + Tokens(s[|t.Text()|..])
  }

  function TextOf(ts: seq<Token>): string {
    if ts == [] then [] else ts[0].Text() + TextOf(ts[1..])
  }

  /** Tokenising loses nothing. */
  lemma {:induction false} TokensLossless(s: string)
    ensures TextOf(Tokens(s)) == s
  {
    if s != [] {
      var t := FirstToken(s);
      TokensLossless(s[|t.Text()|..]);
      assert Tokens(s)[1..] == Tokens(s[|t.Text()|..]);
    }
  }

  // ------------------------------------------------------------------ scanner

  /** A reported selector, with the offset and the comments that its line and waiver are read from. */
  datatype Rule = Rule(selector: string, offset: nat, comments: seq<string>)

  datatype State = State(
    rules: seq<Rule>, stack: seq<string>, comments: seq<string>, buf: string, start: Option<nat>, pos: nat)

  const NESTING_AT_RULES := {"media", "supports", "layer", "container", "scope", "starting-style"}

  /** The letters up to a space or a parenthesis. */
  function LeadingName(s: string): string {
    if s == [] || IsSpace(s[0]) || s[0] == '(' then [] else [s[0]] + LeadingName(s[1..])
  }

  predicate IsAtRule(prelude: string) { prelude != [] && prelude[0] == '@' }

  /** The at-rules that only wrap: their keyword is one of the listed ones, whatever its case. */
  predicate IsNesting(prelude: string) {
    IsAtRule(prelude) && Lower(LeadingName(TrimLeft(prelude[1..]))) in NESTING_AT_RULES
  }

  predicate Skippable(stack: seq<string>) {
    exists i | 0 <= i < |stack| :: !IsNesting(stack[i])
  }

  /** How a prelude becomes the selectors it declares; the gate takes the class-bearing parts of the list. */
  type Selecting = string -> seq<string>

  function RulesFor(selectors: seq<string>, offset: nat, comments: seq<string>): seq<Rule> {
    seq(|selectors|, i requires 0 <= i < |selectors| => Rule(selectors[i], offset, comments))
  }

  /** What a block that opens here contributes, and what is pushed for it. */
  function Opened(select: Selecting, st: State): (seq<Rule>, string) {
    var prelude := Strip(st.buf);
    if !Skippable(st.stack) && prelude != [] && !IsAtRule(prelude) then
      var offset := match st.start case Some(n) => n case None => st.pos;
      (RulesFor(select(prelude), offset, st.comments), "")
    else ([], if IsAtRule(prelude) then prelude else "")
  }

  /** Start collecting afresh after a brace or a semicolon. */
  function Fresh(st: State): State {
    State(st.rules, st.stack, [], [], None, st.pos + 1)
  }

  function Inlined(st: State, t: Token): State {
    match t
    case Comment(c) =>
      State(st.rules, st.stack, if st.start.None? then st.comments + [c] else st.comments,
            st.buf, st.start, st.pos + |c|)
    case Str(c) => State(st.rules, st.stack, st.comments, st.buf + c, st.start, st.pos + |c|)
    case Plain(c) =>
      State(st.rules, st.stack, st.comments, st.buf + [c],
            if !IsSpace(c) && st.start.None? then Some(st.pos) else st.start, st.pos + 1)
    case _ => st
  }

  function Step(select: Selecting, st: State, t: Token): State {
    if t.Inline() then Inlined(st, t)
    else if t.Open? then
      var (rules, mark) := Opened(select, st);
      Fresh(st.(rules := st.rules + rules, stack := st.stack + [mark]))
    else if t.Close? then
      Fresh(st.(stack := if st.stack == [] then [] else st.stack[..|st.stack| - 1]))
    else Fresh(st)
  }

  function Scan(select: Selecting, st: State, ts: seq<Token>): State
    decreases ts
  {
    if ts == [] then st else Scan(select, Step(select, st, ts[0]), ts[1..])
  }

  const EMPTY := State([], [], [], [], None, 0)

  function ParsedRules(select: Selecting, text: string): seq<Rule> {
    Scan(select, EMPTY, Tokens(text)).rules
  }

  lemma {:induction false} ScanConcat(select: Selecting, st: State, a: seq<Token>, b: seq<Token>)
    ensures Scan(select, st, a + b) == Scan(select, Scan(select, st, a), b)
    decreases a
  {
    if a == [] {
      assert a + b == b;
    } else {
      assert (a + b)[1..] == a[1..] + b;
      ScanConcat(select, Step(select, st, a[0]), a[1..], b);
    }
  }

  // --------------------------------------------------------------- block trees

  predicate AllInline(ts: seq<Token>) { forall i | 0 <= i < |ts| :: ts[i].Inline() }

  /** A statement ended by a semicolon, or a block with items and a last, unended declaration. */
  datatype Item =
    | Statement(pre: seq<Token>)
    | Block(pre: seq<Token>, body: seq<Item>, tail: seq<Token>)

  predicate WellFormed(item: Item) {
    && AllInline(item.pre)
    && (item.Block? ==> AllInline(item.tail) && forall i | 0 <= i < |item.body| :: WellFormed(item.body[i]))
  }

  function Render(item: Item): seq<Token> {
    match item
    case Statement(pre) => pre + [Semi]
    case Block(pre, body, tail) => pre + ([Open] + (RenderAll(body) + (tail + [Close])))
  }

  function RenderAll(items: seq<Item>): seq<Token> {
    if items == [] then [] else Render(items[0]) + RenderAll(items[1..])
  }

  /** The selector text of a prelude: its strings and plain characters, comments left out. */
  function PreludeText(pre: seq<Token>): string {
    if pre == [] then []
    else (if pre[0].Comment? then [] else pre[0].Text()) + PreludeText(pre[1..])
  }

  /** The first visible plain character of a prelude, which is where its rule starts. */
  function StartIn(pre: seq<Token>, pos: nat): Option<nat>
    decreases pre
  {
    if pre == [] then None
    else if pre[0].Plain? && !IsSpace(pre[0].c) then Some(pos)
    else StartIn(pre[1..], pos + |pre[0].Text()|)
  }

  /** The comments above a rule: those before its first visible plain character. */
  function CommentsAbove(pre: seq<Token>): seq<string> {
    if pre == [] || (pre[0].Plain? && !IsSpace(pre[0].c)) then []
    else (if pre[0].Comment? then [pre[0].text] else []) + CommentsAbove(pre[1..])
  }

  /** A block of the tree: the preludes around it, its own prelude, and where that starts. */
  datatype Occurrence = Occurrence(ancestors: seq<string>, pre: seq<Token>, pos: nat)

  /** All blocks of an item, in document order. */
  function Blocks(item: Item, ancestors: seq<string>, pos: nat): seq<Occurrence>
    decreases item, 1
  {
    match item
    case Statement(_) => []
    case Block(pre, body, _) =>
      [Occurrence(ancestors, pre, pos)]
      + BlocksIn(body, ancestors + [Strip(PreludeText(pre))], pos + |TextOf(pre)| + 1)
  }

  function BlocksIn(items: seq<Item>, ancestors: seq<string>, pos: nat): seq<Occurrence>
    decreases items, 0
  {
    if items == [] then []
    else Blocks(items[0], ancestors, pos) + BlocksIn(items[1..], ancestors, pos + |TextOf(Render(items[0]))|)
  }

  /** The class-bearing selectors of a style block whose ancestors are all nesting at-rules. */
  function Declares(select: Selecting, o: Occurrence): seq<Rule> {
    var prelude := Strip(PreludeText(o.pre));
    if prelude != [] && !IsAtRule(prelude) && forall i | 0 <= i < |o.ancestors| :: IsNesting(o.ancestors[i]) then
      var offset := match StartIn(o.pre, o.pos) case Some(n) => n case None => o.pos + |TextOf(o.pre)|;
      RulesFor(select(prelude), offset, CommentsAbove(o.pre))
    else []
  }

  function DeclaresAll(select: Selecting, os: seq<Occurrence>): seq<Rule> {
    if os == [] then [] else Declares(select, os[0]) + DeclaresAll(select, os[1..])
  }

  // -------------------------------------------------- the scanner reads the tree

  lemma {:induction false} DeclaresConcat(select: Selecting, a: seq<Occurrence>, b: seq<Occurrence>)
    ensures DeclaresAll(select, a + b) == DeclaresAll(select, a) + DeclaresAll(select, b)
  {
    hide Declares;
    if a == [] {
      assert a + b == b;
    } else {
      assert (a + b)[1..] == a[1..] + b;
      DeclaresConcat(select, a[1..], b);
    }
  }

  lemma {:induction false} TextOfConcat(a: seq<Token>, b: seq<Token>)
    ensures TextOf(a + b) == TextOf(a) + TextOf(b)
  {
    if a == [] {
      assert a + b == b;
    } else {
      assert (a + b)[1..] == a[1..] + b;
      TextOfConcat(a[1..], b);
    }
  }

  lemma Assoc<T>(a: seq<T>, b: seq<T>, c: seq<T>)
    ensures a + b + c == a + (b + c)
  {
  }

  /** The state after a prelude: its text, its start and the comments above it are collected. */
  function Collected(st: State, pre: seq<Token>): State {
    State(st.rules, st.stack,
          if st.start.None? then st.comments + CommentsAbove(pre) else st.comments,
          st.buf + PreludeText(pre),
          if st.start.None? then StartIn(pre, st.pos) else st.start,
          st.pos + |TextOf(pre)|)
  }

  lemma CollectOne(st: State, pre: seq<Token>)
    requires pre != [] && pre[0].Inline()
    ensures Collected(Inlined(st, pre[0]), pre[1..]) == Collected(st, pre)
  {
    var rest := pre[1..];
    match pre[0]
    case Comment(c) =>
      Assoc(st.comments, [c], CommentsAbove(rest));
      assert [] + PreludeText(rest) == PreludeText(rest);
    case Str(c) =>
      Assoc(st.buf, c, PreludeText(rest));
      assert [] + CommentsAbove(rest) == CommentsAbove(rest);
    case Plain(c) =>
      Assoc(st.buf, [c], PreludeText(rest));
      assert [] + CommentsAbove(rest) == CommentsAbove(rest);
      assert st.comments + [] == st.comments;
  }

  lemma {:induction false} ScanInline(select: Selecting, st: State, pre: seq<Token>)
    requires AllInline(pre)
    ensures Scan(select, st, pre) == Collected(st, pre)
    decreases pre
  {
    if pre != [] {
      assert pre[0].Inline();
      ScanInline(select, Inlined(st, pre[0]), pre[1..]);
      CollectOne(st, pre);
    }
  }

  /** What the scanner keeps on its stack for a chain of enclosing preludes. */
  function Marks(ancestors: seq<string>): seq<string> {
    seq(|ancestors|, i requires 0 <= i < |ancestors| => if IsAtRule(ancestors[i]) then ancestors[i] else "")
  }

  predicate Ready(st: State, ancestors: seq<string>) {
    st.comments == [] && st.buf == [] && st.start == None && st.stack == Marks(ancestors)
  }

  lemma SkippableIsBadAncestor(ancestors: seq<string>)
    ensures Skippable(Marks(ancestors)) <==> !forall i | 0 <= i < |ancestors| :: IsNesting(ancestors[i])
  {
    var stack := Marks(ancestors);
    assert forall i | 0 <= i < |ancestors| :: IsNesting(stack[i]) == IsNesting(ancestors[i]);
  }

  /** The state once `rules` have been reported and `length` more characters read. */
  function Reported(st: State, rules: seq<Rule>, stack: seq<string>, length: nat): State {
    State(st.rules + rules, stack, [], [], None, st.pos + length)
  }

  lemma MarksSnoc(ancestors: seq<string>, prelude: string)
    ensures Marks(ancestors + [prelude]) == Marks(ancestors) + [if IsAtRule(prelude) then prelude else ""]
  {
  }

  /** A prelude read from a fresh start is all there is in the buffer. */
  lemma CollectedFresh(st: State, ancestors: seq<string>, pre: seq<Token>)
    requires Ready(st, ancestors)
    ensures Collected(st, pre) == State(st.rules, Marks(ancestors), CommentsAbove(pre), PreludeText(pre),
                                        StartIn(pre, st.pos), st.pos + |TextOf(pre)|)
  {
    hide StartIn, CommentsAbove, PreludeText, TextOf, Marks;
    assert [] + PreludeText(pre) == PreludeText(pre) && [] + CommentsAbove(pre) == CommentsAbove(pre);
  }

  lemma ScanOpen(select: Selecting, st: State, ancestors: seq<string>, pre: seq<Token>)
    requires Ready(st, ancestors) && AllInline(pre)
    ensures Step(select, Collected(st, pre), Open) ==
      Reported(st, Declares(select, Occurrence(ancestors, pre, st.pos)),
               Marks(ancestors + [Strip(PreludeText(pre))]), |TextOf(pre)| + 1)
  {
    hide Strip, IsNesting, StartIn, CommentsAbove, PreludeText, TextOf, RulesFor, Skippable, Marks;
    CollectedFresh(st, ancestors, pre);
    hide Collected, Ready;
    SkippableIsBadAncestor(ancestors);
    MarksSnoc(ancestors, Strip(PreludeText(pre)));
  }

  lemma ScanEnd(select: Selecting, st: State, tail: seq<Token>, last: Token)
    requires AllInline(tail) && (last.Close? || last.Semi?)
    ensures Scan(select, st, tail + [last]) ==
      Reported(st, [], if last.Close? && st.stack != [] then st.stack[..|st.stack| - 1] else st.stack,
               |TextOf(tail + [last])|)
  {
    ScanConcat(select, st, tail, [last]);
    ScanInline(select, st, tail);
    TextOfConcat(tail, [last]);
    var read := Scan(select, st, tail);
    assert Scan(select, read, [last]) == Step(select, read, last);
    assert TextOf([last]) == last.Text() + [];
    assert st.rules + [] == st.rules;
  }

  lemma BlockLength(item: Item)
    requires item.Block?
    ensures |TextOf(Render(item))| ==
      |TextOf(item.pre)| + 1 + |TextOf(RenderAll(item.body))| + |TextOf(item.tail + [Close])|
  {
    var rest := RenderAll(item.body) + (item.tail + [Close]);
    TextOfConcat(item.pre, [Open] + rest);
    TextOfConcat([Open], rest);
    assert TextOf([Open]) == "{" + [];
    TextOfConcat(RenderAll(item.body), item.tail + [Close]);
  }

  /** Reading a whole block token by token: prelude, brace, items, last declaration, brace. */
  lemma ScanBlock(select: Selecting, st: State, item: Item)
    requires item.Block? && AllInline(item.pre)
    ensures Scan(select, st, Render(item)) ==
      Scan(select,
           Scan(select, Step(select, Collected(st, item.pre), Open), RenderAll(item.body)),
           item.tail + [Close])
  {
    var rest := RenderAll(item.body) + (item.tail + [Close]);
    ScanConcat(select, st, item.pre, [Open] + rest);
    ScanInline(select, st, item.pre);
    assert ([Open] + rest)[1..] == rest;
    ScanConcat(select, Step(select, Collected(st, item.pre), Open), RenderAll(item.body), item.tail + [Close]);
  }

  lemma BlockRules(select: Selecting, item: Item, ancestors: seq<string>, pos: nat)
    requires item.Block?
    ensures DeclaresAll(select, Blocks(item, ancestors, pos)) ==
      Declares(select, Occurrence(ancestors, item.pre, pos))
      + DeclaresAll(select,
                    BlocksIn(item.body, ancestors + [Strip(PreludeText(item.pre))], pos + |TextOf(item.pre)| + 1))
  {
    hide Declares, Strip, BlocksIn, TextOf, PreludeText;
    assert Blocks(item, ancestors, pos)[1..] ==
      BlocksIn(item.body, ancestors + [Strip(PreludeText(item.pre))], pos + |TextOf(item.pre)| + 1);
  }

  /** Scanning an item reports its blocks and leaves the stack as it was. */
  lemma {:induction false} ScanItem(select: Selecting, st: State, ancestors: seq<string>, item: Item)
    requires Ready(st, ancestors) && WellFormed(item)
    ensures Scan(select, st, Render(item)) ==
      Reported(st, DeclaresAll(select, Blocks(item, ancestors, st.pos)), st.stack, |TextOf(Render(item))|)
    decreases item, 1
  {
    match item
    case Statement(pre) =>
      ScanEnd(select, st, pre, Semi);
    case Block(pre, body, tail) =>
      hide Declares, DeclaresAll, Strip, Step, Collected, Marks, RenderAll, TextOf;
      var inner := ancestors + [Strip(PreludeText(pre))];
      ScanBlock(select, st, item);
      ScanOpen(select, st, ancestors, pre);
      var inside := Step(select, Collected(st, pre), Open);
      ScanItems(select, inside, inner, body);
      ScanEnd(select, Scan(select, inside, RenderAll(body)), tail, Close);
      BlockAddsUp(select, st, ancestors, item, inside.pos);
  }

  /** What a block reports and how long it is, from its prelude and its body. */
  lemma BlockAddsUp(select: Selecting, st: State, ancestors: seq<string>, item: Item, inside: nat)
    requires item.Block? && inside == st.pos + |TextOf(item.pre)| + 1
    ensures var inner := ancestors + [Strip(PreludeText(item.pre))];
      && st.rules + Declares(select, Occurrence(ancestors, item.pre, st.pos))
         + DeclaresAll(select, BlocksIn(item.body, inner, inside)) + [] ==
         st.rules + DeclaresAll(select, Blocks(item, ancestors, st.pos))
      && inside + |TextOf(RenderAll(item.body))| + |TextOf(item.tail + [Close])| == st.pos + |TextOf(Render(item))|
      && Marks(inner) != [] && Marks(inner)[..|Marks(inner)| - 1] == Marks(ancestors)
  {
    hide Declares, DeclaresAll, Strip, Blocks, BlocksIn, Render, RenderAll, TextOf, IsAtRule;
    var inner := ancestors + [Strip(PreludeText(item.pre))];
    BlockLength(item);
    BlockRules(select, item, ancestors, st.pos);
    var own := Declares(select, Occurrence(ancestors, item.pre, st.pos));
    Assoc(st.rules, own, DeclaresAll(select, BlocksIn(item.body, inner, inside)));
  }

  lemma {:induction false} ScanItems(select: Selecting, st: State, ancestors: seq<string>, items: seq<Item>)
    requires Ready(st, ancestors) && forall i | 0 <= i < |items| :: WellFormed(items[i])
    ensures Scan(select, st, RenderAll(items)) ==
      Reported(st, DeclaresAll(select, BlocksIn(items, ancestors, st.pos)), st.stack, |TextOf(RenderAll(items))|)
    decreases items, 0
  {
    if items == [] {
      assert st.rules + [] == st.rules;
    } else {
      hide Declares, DeclaresAll, Render, Blocks, Step, WellFormed, Marks;
      ScanConcat(select, st, Render(items[0]), RenderAll(items[1..]));
      ScanItem(select, st, ancestors, items[0]);
      var next := Scan(select, st, Render(items[0]));
      ScanItems(select, next, ancestors, items[1..]);
      ItemsAddUp(select, st, ancestors, items, next.pos);
    }
  }

  lemma ItemsAddUp(select: Selecting, st: State, ancestors: seq<string>, items: seq<Item>, next: nat)
    requires items != [] && next == st.pos + |TextOf(Render(items[0]))|
    ensures |TextOf(RenderAll(items))| == |TextOf(Render(items[0]))| + |TextOf(RenderAll(items[1..]))|
    ensures st.rules + DeclaresAll(select, BlocksIn(items, ancestors, st.pos)) ==
      st.rules + DeclaresAll(select, Blocks(items[0], ancestors, st.pos))
      + DeclaresAll(select, BlocksIn(items[1..], ancestors, next))
  {
    hide Declares, DeclaresAll, Render, Blocks;
    TextOfConcat(Render(items[0]), RenderAll(items[1..]));
    var here, later := Blocks(items[0], ancestors, st.pos), BlocksIn(items[1..], ancestors, next);
    DeclaresConcat(select, here, later);
    Assoc(st.rules, DeclaresAll(select, here), DeclaresAll(select, later));
  }

  lemma TokensReportTheirTree(select: Selecting, ts: seq<Token>, items: seq<Item>, tail: seq<Token>)
    requires forall i | 0 <= i < |items| :: WellFormed(items[i])
    requires AllInline(tail) && ts == RenderAll(items) + tail
    ensures Scan(select, EMPTY, ts).rules == DeclaresAll(select, BlocksIn(items, [], 0))
  {
    hide DeclaresAll, BlocksIn, RenderAll, WellFormed, Step, Scan;
    ScanConcat(select, EMPTY, RenderAll(items), tail);
    assert Marks([]) == [];
    assert EMPTY.rules + DeclaresAll(select, BlocksIn(items, [], 0)) == DeclaresAll(select, BlocksIn(items, [], 0));
    ScanItems(select, EMPTY, [], items);
    ScanInline(select, Scan(select, EMPTY, RenderAll(items)), tail);
  }

  /** A stylesheet reports exactly what its block tree declares, in document order. */
  lemma SheetReportsItsTree(select: Selecting, text: string, items: seq<Item>, tail: seq<Token>)
    requires forall i | 0 <= i < |items| :: WellFormed(items[i])
    requires AllInline(tail) && Tokens(text) == RenderAll(items) + tail
    ensures ParsedRules(select, text) == DeclaresAll(select, BlocksIn(items, [], 0))
  {
    TokensReportTheirTree(select, Tokens(text), items, tail);
  }

  // ------------------------------------------------------ every text has a tree

  /** Missing closing braces are supplied and stray ones read as semicolons; d blocks are open. */
  function Repair(ts: seq<Token>, d: nat): seq<Token>
    decreases ts
  {
    if ts == [] then seq(d, _ => Close)
    else if ts[0].Open? then [Open] + Repair(ts[1..], d + 1)
    else if ts[0].Close? then if d == 0 then [Semi] + Repair(ts[1..], 0) else [Close] + Repair(ts[1..], d - 1)
    else [ts[0]] + Repair(ts[1..], d)
  }

  predicate Balanced(ts: seq<Token>, d: nat)
    decreases ts
  {
    if ts == [] then d == 0
    else if ts[0].Open? then Balanced(ts[1..], d + 1)
    else if ts[0].Close? then d > 0 && Balanced(ts[1..], d - 1)
    else Balanced(ts[1..], d)
  }

  lemma {:induction false} RepairIsBalanced(ts: seq<Token>, d: nat)
    ensures Balanced(Repair(ts, d), d)
    decreases |ts|, d
  {
    var r := Repair(ts, d);
    if ts == [] {
      if d > 0 {
        assert r[0] == Close && r[1..] == seq(d - 1, _ => Close) == Repair([], d - 1);
        RepairIsBalanced([], d - 1);
      }
    } else {
      var next := if ts[0].Open? then d + 1 else if ts[0].Close? && d > 0 then d - 1 else d;
      assert r[1..] == Repair(ts[1..], next);
      RepairIsBalanced(ts[1..], next);
    }
  }

  /** Closing braces report nothing. */
  lemma {:induction false} ClosesReportNothing(select: Selecting, st: State, d: nat)
    ensures Scan(select, st, seq(d, _ => Close)).rules == st.rules
    decreases d
  {
    var ts := seq(d, _ => Close);
    if d > 0 {
      assert ts[0] == Close && ts[1..] == seq(d - 1, _ => Close);
      ClosesReportNothing(select, Step(select, st, Close), d - 1);
    }
  }

  lemma {:induction false} RepairReportsTheSame(select: Selecting, st: State, ts: seq<Token>)
    ensures Scan(select, st, Repair(ts, |st.stack|)).rules == Scan(select, st, ts).rules
    decreases ts
  {
    hide Opened, Inlined;
    var d := |st.stack|;
    if ts == [] {
      ClosesReportNothing(select, st, d);
    } else {
      var next := Step(select, st, ts[0]);
      InlineKeepsStack(st, ts[0]);
      var r := Repair(ts, d);
      assert r[1..] == Repair(ts[1..], |next.stack|);
      assert Step(select, st, r[0]) == next;
      RepairReportsTheSame(select, next, ts[1..]);
    }
  }

  lemma InlineKeepsStack(st: State, t: Token)
    ensures Inlined(st, t).stack == st.stack
  {
  }

  /** The inline tokens up to the next brace or semicolon. */
  lemma {:induction false} InlinePrefix(ts: seq<Token>, d: nat) returns (pre: seq<Token>, rest: seq<Token>)
    requires Balanced(ts, d)
    ensures ts == pre + rest && AllInline(pre) && Balanced(rest, d)
    ensures rest != [] ==> !rest[0].Inline()
    decreases ts
  {
    if ts == [] || !ts[0].Inline() {
      pre, rest := [], ts;
    } else {
      pre, rest := InlinePrefix(ts[1..], d);
      assert ts == [ts[0]] + (pre + rest);
      pre := [ts[0]] + pre;
    }
  }

  lemma RenderCons(item: Item, items: seq<Item>)
    ensures RenderAll([item] + items) == Render(item) + RenderAll(items)
  {
    assert ([item] + items)[1..] == items;
  }

  /** One level of nesting, read up to the brace that closes it or to the end. */
  lemma {:induction false} TreeOf(ts: seq<Token>, d: nat)
    returns (items: seq<Item>, tail: seq<Token>, rest: seq<Token>)
    requires Balanced(ts, d)
    ensures ts == RenderAll(items) + (tail + rest) && Balanced(rest, d) && AllInline(tail)
    ensures if d == 0 then rest == [] else rest != [] && rest[0] == Close
    ensures forall i | 0 <= i < |items| :: WellFormed(items[i])
    ensures |rest| <= |ts|
    decreases |ts|
  {
    hide RenderAll, Render;
    var pre, after := InlinePrefix(ts, d);
    if after == [] || after[0].Close? {
      items, tail, rest := [], pre, after;
      assert RenderAll([]) == [] by { EmptyRender(); }
    } else if after[0].Semi? {
      var item := Statement(pre);
      items, tail, rest := TreeOf(after[1..], d);
      StatementSplit(ts, item, after, items, tail + rest);
      items := [item] + items;
    } else {
      var body, last, closing := TreeOf(after[1..], d + 1);
      var item := Block(pre, body, last);
      items, tail, rest := TreeOf(closing[1..], d);
      BlockSplit(ts, item, after, closing, items, tail + rest);
      items := [item] + items;
    }
  }

  lemma EmptyRender()
    ensures RenderAll([]) == []
  {
  }

  lemma StatementSplit(ts: seq<Token>, item: Item, after: seq<Token>, items: seq<Item>, more: seq<Token>)
    requires item.Statement? && ts == item.pre + after && after != [] && after[0] == Semi
    requires after[1..] == RenderAll(items) + more
    ensures ts == RenderAll([item] + items) + more
  {
    hide RenderAll;
    RenderCons(item, items);
    Assoc(Render(item), RenderAll(items), more);
    assert after == [Semi] + (RenderAll(items) + more);
  }

  lemma BlockSplit(
    ts: seq<Token>, item: Item, after: seq<Token>, closing: seq<Token>, items: seq<Item>, more: seq<Token>)
    requires item.Block? && ts == item.pre + after && after != [] && after[0] == Open
    requires after[1..] == RenderAll(item.body) + (item.tail + closing)
    requires closing != [] && closing[0] == Close && closing[1..] == RenderAll(items) + more
    ensures ts == RenderAll([item] + items) + more
  {
    hide RenderAll;
    RenderCons(item, items);
    var inner, later := RenderAll(item.body), RenderAll(items) + more;
    var tail := item.tail + [Close];
    assert closing == [Close] + later;
    Assoc(item.tail, [Close], later);
    Assoc(inner, tail, later);
    assert after == [Open] + ((inner + tail) + later);
    Assoc([Open], inner + tail, later);
    Assoc(item.pre, [Open] + (inner + tail), later);
    Assoc(Render(item), RenderAll(items), more);
  }

  /** Whatever the text, balanced or not, its rules are those of the block tree of its repaired tokens. */
  lemma EveryTextReportsATree(select: Selecting, text: string) returns (items: seq<Item>, tail: seq<Token>)
    ensures forall i | 0 <= i < |items| :: WellFormed(items[i])
    ensures AllInline(tail) && Repair(Tokens(text), 0) == RenderAll(items) + tail
    ensures ParsedRules(select, text) == DeclaresAll(select, BlocksIn(items, [], 0))
  {
    hide Tokens, Scan, Repair, RenderAll, BlocksIn, DeclaresAll, WellFormed, Marks, Balanced;
    var ts := Repair(Tokens(text), 0);
    RepairIsBalanced(Tokens(text), 0);
    RepairReportsTheSame(select, EMPTY, Tokens(text));
    var rest;
    items, tail, rest := TreeOf(ts, 0);
    assert tail + rest == tail;
    TokensReportTheirTree(select, ts, items, tail);
  }

  // -------------------------------------------------------- comments and strings

  function Erase(ts: seq<Token>): seq<Token> {
    if ts == [] then []
    else if ts[0].Comment? then Erase(ts[1..])
    else [ts[0]] + Erase(ts[1..])
  }

  function Names(rules: seq<Rule>): seq<string> {
    seq(|rules|, i requires 0 <= i < |rules| => rules[i].selector)
  }

  /** Two scans that agree on everything but positions and comments. */
  predicate Alike(a: State, b: State) {
    Names(a.rules) == Names(b.rules) && a.stack == b.stack && a.buf == b.buf
  }

  lemma StepKeepsAlike(select: Selecting, a: State, b: State, t: Token)
    requires Alike(a, b)
    ensures Alike(Step(select, a, t), Step(select, b, t))
  {
    hide Strip, Skippable;
    if t.Open? {
      assert Names(a.rules + Opened(select, a).0) == Names(b.rules + Opened(select, b).0) by {
        assert Names(Opened(select, a).0) == Names(Opened(select, b).0);
        NamesConcat(a.rules, Opened(select, a).0);
        NamesConcat(b.rules, Opened(select, b).0);
      }
    }
  }

  lemma NamesConcat(a: seq<Rule>, b: seq<Rule>)
    ensures Names(a + b) == Names(a) + Names(b)
  {
  }

  lemma {:induction false} EraseKeepsNames(select: Selecting, a: State, b: State, ts: seq<Token>)
    requires Alike(a, b)
    ensures Names(Scan(select, a, ts).rules) == Names(Scan(select, b, Erase(ts)).rules)
    decreases ts
  {
    hide Names;
    if ts != [] {
      var next := Step(select, a, ts[0]);
      if ts[0].Comment? {
        EraseKeepsNames(select, next, b, ts[1..]);
      } else {
        StepKeepsAlike(select, a, b, ts[0]);
        assert Erase(ts)[1..] == Erase(ts[1..]);
        EraseKeepsNames(select, next, Step(select, b, ts[0]), ts[1..]);
      }
    }
  }

  /** Comments never change which selectors a stylesheet reports. */
  lemma CommentsNeverSelect(select: Selecting, text: string)
    ensures Names(ParsedRules(select, text)) == Names(Scan(select, EMPTY, Erase(Tokens(text))).rules)
  {
    EraseKeepsNames(select, EMPTY, EMPTY, Tokens(text));
  }

  /** A string body: no bare closing quote, every backslash followed by a character. */
  predicate StringBody(q: char, body: string) {
    body == [] ||
    (if body[0] == '\\' then |body| >= 2 && StringBody(q, body[2..]) else body[0] != q && StringBody(q, body[1..]))
  }

  lemma {:induction false} StringEndsAtQuote(s: string, q: Quote, k: nat, body: string, rest: string)
    requires k <= |s| && s[k..] == body + [q] + rest && StringBody(q, body)
    ensures StringEnd(s, q, k) == k + |body| + 1
    decreases body
  {
    assert s[k] == s[k..][0];
    if body != [] {
      var n := if body[0] == '\\' then 2 else 1;
      assert s[k + n..] == s[k..][n..] == body[n..] + [q] + rest;
      StringEndsAtQuote(s, q, k + n, body[n..], rest);
    }
  }

  /** A string is one token, whatever braces, semicolons and comment marks it holds. */
  lemma StringsAreAtomic(q: Quote, body: string, rest: string)
    requires StringBody(q, body)
    ensures Tokens([q] + body + [q] + rest) == [Str([q] + body + [q])] + Tokens(rest)
  {
    hide Tokens;
    var s := [q] + body + [q] + rest;
    assert s[1..] == body + [q] + rest;
    StringEndsAtQuote(s, q, 1, body, rest);
    assert s[..|body| + 2] == [q] + body + [q];
    assert s[|body| + 2..] == rest;
    TokensStep(s);
  }

  lemma TokensStep(s: string)
    requires s != []
    ensures Tokens(s) == [FirstToken(s)] + Tokens(s[|FirstToken(s).Text()|..])
  {
  }

  /** A comment body: no comment mark closes in it. */
  predicate CommentBody(body: string) {
    forall i | 0 <= i < |body| - 1 :: !(body[i] == '*' && body[i + 1] == '/')
  }

  lemma {:induction false} CommentEndsAtMark(s: string, k: nat, body: string, rest: string)
    requires k <= |s| && s[k..] == body + "*/" + rest
    requires CommentBody(body)
    ensures CommentEnd(s, k) == k + |body| + 2
    decreases body
  {
    assert s[k] == s[k..][0] && s[k + 1] == s[k..][1];
    if body != [] {
      assert s[k + 1..] == s[k..][1..] == body[1..] + "*/" + rest;
      CommentEndsAtMark(s, k + 1, body[1..], rest);
    }
  }

  /** A comment is one token, whatever braces and quotes it holds. */
  lemma CommentsAreAtomic(body: string, rest: string)
    requires CommentBody(body)
    ensures Tokens("/*" + body + "*/" + rest) == [Comment("/*" + body + "*/")] + Tokens(rest)
  {
    hide Tokens;
    var s := "/*" + body + "*/" + rest;
    assert s[2..] == body + "*/" + rest;
    CommentEndsAtMark(s, 2, body, rest);
    assert s[..|body| + 4] == "/*" + body + "*/";
    assert s[|body| + 4..] == rest;
    TokensStep(s);
  }

  /** The next brace or semicolon opens a block, so what comes before it is a prelude. */
  predicate OpensNext(ts: seq<Token>) {
    ts != [] && (ts[0].Open? || (ts[0].Inline() && OpensNext(ts[1..])))
  }

  /** The same tokens but for what comments say and what strings outside block preludes say. */
  predicate SameOutside(ts: seq<Token>, us: seq<Token>) {
    && |ts| == |us|
    && (ts != [] ==>
          && SameOutside(ts[1..], us[1..])
          && (ts[0] == us[0] || (ts[0].Comment? && us[0].Comment?)
              || (ts[0].Str? && us[0].Str? && !OpensNext(ts[1..]))))
  }

  /** Two scans that agree on what was reported and what encloses, and on the prelude if one is being read. */
  predicate AlikeAt(a: State, b: State, ts: seq<Token>) {
    Names(a.rules) == Names(b.rules) && a.stack == b.stack && (OpensNext(ts) ==> a.buf == b.buf)
  }

  lemma StepKeepsAlikeAt(select: Selecting, a: State, b: State, ts: seq<Token>, us: seq<Token>)
    requires ts != [] && SameOutside(ts, us) && AlikeAt(a, b, ts)
    ensures AlikeAt(Step(select, a, ts[0]), Step(select, b, us[0]), ts[1..])
  {
    hide Names;
    if ts[0].Open? {
      StepKeepsAlike(select, a, b, Open);
    }
  }

  lemma {:induction false} OutsideKeepsNames(select: Selecting, a: State, b: State, ts: seq<Token>, us: seq<Token>)
    requires SameOutside(ts, us) && AlikeAt(a, b, ts)
    ensures Names(Scan(select, a, ts).rules) == Names(Scan(select, b, us).rules)
    decreases ts
  {
    hide Names, Step, AlikeAt;
    if ts == [] {
      assert Names(a.rules) == Names(b.rules) by { AlikeNames(a, b, ts); }
    } else {
      StepKeepsAlikeAt(select, a, b, ts, us);
      OutsideKeepsNames(select, Step(select, a, ts[0]), Step(select, b, us[0]), ts[1..], us[1..]);
    }
  }

  lemma AlikeNames(a: State, b: State, ts: seq<Token>)
    requires AlikeAt(a, b, ts)
    ensures Names(a.rules) == Names(b.rules)
  {
  }

  /** A token that is read as itself whatever follows, and cannot complete a comment mark before it. */
  ghost predicate Standalone(t: Token) {
    t.Text() != [] && t.Text()[0] != '*' && forall rest: string :: Tokens(t.Text() + rest) == [t] + Tokens(rest)
  }

  lemma {:induction false} CommentEndStays(s: string, u: string, k: nat)
    requires k <= |s| && CommentEnd(s, k) < |s| && s[..CommentEnd(s, k)] <= u
    ensures CommentEnd(u, k) == CommentEnd(s, k)
    decreases |s| - k
  {
    var n := CommentEnd(s, k);
    assert forall i | 0 <= i < n :: u[i] == u[..n][i] == s[i];
    if !(s[k] == '*' && s[k + 1] == '/') {
      CommentEndStays(s, u, k + 1);
      CommentEndBeyond(s, k + 1);
    }
  }

  lemma {:induction false} CommentEndBeyond(s: string, k: nat)
    requires k <= |s| && CommentEnd(s, k) < |s|
    ensures k + 2 <= CommentEnd(s, k)
    decreases |s| - k
  {
    if !(s[k] == '*' && s[k + 1] == '/') {
      CommentEndBeyond(s, k + 1);
    }
  }

  lemma {:induction false} StringEndStays(s: string, u: string, q: char, k: nat)
    requires StringEnd(s, q, k) < |s| && s[..StringEnd(s, q, k)] <= u
    ensures StringEnd(u, q, k) == StringEnd(s, q, k)
    decreases |s| - k
  {
    var n := StringEnd(s, q, k);
    assert forall i | 0 <= i < n :: u[i] == u[..n][i] == s[i];
    if s[k] == '\\' {
      StringEndStays(s, u, q, k + 2);
    } else if s[k] != q {
      StringEndStays(s, u, q, k + 1);
    }
  }

  /** What follows a token does not matter to it, unless it completes a comment mark. */
  lemma FirstTokenStays(s: string, u: string)
    requires s != [] && |FirstToken(s).Text()| < |s|
    requires var t := FirstToken(s).Text(); t < u && (u[|t|] == '*' <==> s[|t|] == '*')
    ensures FirstToken(u) == FirstToken(s)
  {
    var t := FirstToken(s).Text();
    assert u[..|t|] == t == s[..|t|];
    assert u[0] == t[0] == s[0];
    if StartsComment(s) {
      CommentEndBeyond(s, 2);
      assert u[1] == t[1] == s[1];
      CommentEndStays(s, u, 2);
    } else if IsQuote(s[0]) {
      StringEndStays(s, u, s[0], 1);
    }
  }

  predicate StarFirst(s: string) { s != [] && s[0] == '*' }

  lemma StarOfText(t: Token, rest: string)
    requires t.Text() != []
    ensures StarFirst(t.Text() + rest) <==> StarFirst(t.Text())
  {
  }

  /** A token goes on being the first one when what follows it is replaced. */
  lemma FirstTokenKept(s: string, u: string)
    requires s != [] && u != []
    requires var rest := s[|FirstToken(s).Text()|..]; rest != [] && (StarFirst(u) <==> StarFirst(rest))
    ensures Tokens(FirstToken(s).Text() + u) == [FirstToken(s)] + Tokens(u)
  {
    hide Tokens, FirstToken;
    var text := FirstToken(s).Text();
    assert text == s[..|text|];
    FirstTokenStays(s, text + u);
    TokensStep(text + u);
    assert (text + u)[|text|..] == u;
  }

  lemma UpdateHead(t0: Token, tail: seq<Token>, t: Token)
    ensures ([t0] + tail)[0 := t] == [t] + tail
  {
  }

  lemma UpdateTail(t0: Token, tail: seq<Token>, k: nat, t: Token)
    requires 0 < k <= |tail|
    ensures ([t0] + tail)[k := t] == [t0] + tail[k - 1 := t] && ([t0] + tail)[k] == tail[k - 1]
  {
  }

  /** The tokens, once replaced, spell a text that reads back as them and starts with a star if s does. */
  ghost predicate ReadsBack(s: string, us: seq<Token>) {
    Tokens(TextOf(us)) == us && TextOf(us) != [] && (StarFirst(TextOf(us)) <==> StarFirst(s))
  }

  lemma ReplacedFirst(was: Token, rest: string, t: Token)
    requires was.Text() != [] && !StarFirst(was.Text()) && Standalone(t)
    ensures ReadsBack(was.Text() + rest, [t] + Tokens(rest))
  {
    hide Tokens, Standalone, TextOf, StarFirst;
    TextOfCons(t, Tokens(rest));
    TokensLossless(rest);
    StandaloneReads(t, rest);
    StarOfText(t, rest);
    StarOfText(was, rest);
  }

  lemma ReplacedLater(s: string, later: seq<Token>)
    requires s != [] && s[|FirstToken(s).Text()|..] != []
    requires ReadsBack(s[|FirstToken(s).Text()|..], later)
    ensures ReadsBack(s, [FirstToken(s)] + later)
  {
    hide Tokens, FirstToken, TextOf, StarFirst;
    var t := FirstToken(s);
    TextOfCons(t, later);
    StarOfText(t, TextOf(later));
    StarOfText(t, s[|t.Text()|..]);
    assert s == t.Text() + s[|t.Text()|..];
    FirstTokenKept(s, TextOf(later));
  }

  /** Putting a standalone token for another reads back as just that. */
  lemma {:induction false} Retokenised(s: string, ts: seq<Token>, k: nat, t: Token)
    requires ts == Tokens(s) && k < |ts| && ts[k].Text() != [] && !StarFirst(ts[k].Text()) && Standalone(t)
    ensures ReadsBack(s, ts[k := t])
    decreases |s|
  {
    hide Tokens, FirstToken, Standalone, StarFirst, ReadsBack;
    NoTokens(s, ts);
    TokensStep(s);
    var t0 := FirstToken(s);
    var rest := s[|t0.Text()|..];
    var tail := Tokens(rest);
    hide Token.Text;
    if k == 0 {
      UpdateHead(t0, tail, t);
      FirstSplit(s);
      ReplacedFirst(t0, rest, t);
    } else {
      UpdateTail(t0, tail, k, t);
      NoTokens(rest, tail);
      Retokenised(rest, tail, k - 1, t);
      ReplacedLater(s, tail[k - 1 := t]);
    }
  }

  lemma FirstSplit(s: string)
    requires s != []
    ensures s == FirstToken(s).Text() + s[|FirstToken(s).Text()|..]
  {
    hide FirstToken;
  }

  lemma NoTokens(s: string, ts: seq<Token>)
    requires ts == Tokens(s) && ts != []
    ensures s != []
  {
  }

  lemma TextOfCons(t: Token, ts: seq<Token>)
    ensures TextOf([t] + ts) == t.Text() + TextOf(ts)
  {
    assert ([t] + ts)[1..] == ts;
  }

  lemma StandaloneReads(t: Token, rest: string)
    requires Standalone(t)
    ensures Tokens(t.Text() + rest) == [t] + Tokens(rest) && t.Text() != [] && !StarFirst(t.Text())
  {
  }

  lemma {:induction false} ReplacedOutside(ts: seq<Token>, k: nat, t: Token)
    requires k < |ts| && ((ts[k].Comment? && t.Comment?) || (ts[k].Str? && t.Str? && !OpensNext(ts[k + 1..])))
    ensures SameOutside(ts, ts[k := t])
    decreases ts
  {
    var us := ts[k := t];
    if k == 0 {
      assert us[1..] == ts[1..];
      Unchanged(ts[1..]);
    } else {
      assert us[1..] == ts[1..][k - 1 := t];
      assert ts[1..][k..] == ts[k + 1..];
      ReplacedOutside(ts[1..], k - 1, t);
    }
  }

  lemma {:induction false} Unchanged(ts: seq<Token>)
    ensures SameOutside(ts, ts)
  {
    if ts != [] {
      Unchanged(ts[1..]);
    }
  }

  /** Put a standalone token for a comment, or for a string outside a block prelude: the same selectors. */
  lemma ReplacedNeverSelects(select: Selecting, text: string, k: nat, t: Token)
    requires k < |Tokens(text)| && Standalone(t)
    requires var was := Tokens(text)[k];
      (was.Comment? && t.Comment?) || (was.Str? && t.Str? && !OpensNext(Tokens(text)[k + 1..]))
    ensures Names(ParsedRules(select, TextOf(Tokens(text)[k := t]))) == Names(ParsedRules(select, text))
  {
    TokenHead(text, k);
    hide Tokens, Standalone, Scan, OpensNext, TextOf;
    Retokenised(text, Tokens(text), k, t);
    ReplacedOutside(Tokens(text), k, t);
    OutsideKeepsNames(select, EMPTY, EMPTY, Tokens(text), Tokens(text)[k := t]);
  }

  /**
   * Rewrite any one string outside a block prelude, in a whole text: whatever braces,
   * semicolons and comment marks the new body holds, the selectors reported are the same.
   */
  lemma StringContentsNeverSelect(select: Selecting, text: string, k: nat, q: Quote, body: string)
    requires k < |Tokens(text)| && Tokens(text)[k].Str? && !OpensNext(Tokens(text)[k + 1..]) && StringBody(q, body)
    ensures var changed := TextOf(Tokens(text)[k := Str([q] + body + [q])]);
      Names(ParsedRules(select, changed)) == Names(ParsedRules(select, text))
  {
    hide Tokens, Standalone, OpensNext, TextOf, ParsedRules, Names, StringBody;
    StringStandsAlone(q, body);
    ReplacedNeverSelects(select, text, k, Str([q] + body + [q]));
  }

  /** The same for any one comment, in a prelude or not, and any new body that does not close it. */
  lemma CommentContentsNeverSelect(select: Selecting, text: string, k: nat, body: string)
    requires k < |Tokens(text)| && Tokens(text)[k].Comment? && CommentBody(body)
    ensures var changed := TextOf(Tokens(text)[k := Comment("/*" + body + "*/")]);
      Names(ParsedRules(select, changed)) == Names(ParsedRules(select, text))
  {
    hide Tokens, Standalone, OpensNext, TextOf, ParsedRules, Names, CommentBody;
    CommentStandsAlone(body);
    ReplacedNeverSelects(select, text, k, Comment("/*" + body + "*/"));
  }

  /** A comment starts with a slash and a string with a quote. */
  lemma {:induction false} TokenHead(s: string, k: nat)
    requires k < |Tokens(s)| && (Tokens(s)[k].Comment? || Tokens(s)[k].Str?)
    ensures Tokens(s)[k].Text() != [] && !StarFirst(Tokens(s)[k].Text())
    decreases |s|
  {
    if k > 0 {
      TokenHead(s[|FirstToken(s).Text()|..], k - 1);
    } else {
      assert Tokens(s)[0].Text()[0] == s[0];
    }
  }

  lemma StringStandsAlone(q: Quote, body: string)
    requires StringBody(q, body)
    ensures Standalone(Str([q] + body + [q]))
  {
    var t := Str([q] + body + [q]);
    forall rest: string ensures Tokens(t.Text() + rest) == [t] + Tokens(rest) {
      StringsAreAtomic(q, body, rest);
    }
  }

  lemma CommentStandsAlone(body: string)
    requires CommentBody(body)
    ensures Standalone(Comment("/*" + body + "*/"))
  {
    var t := Comment("/*" + body + "*/");
    forall rest: string ensures Tokens(t.Text() + rest) == [t] + Tokens(rest) {
      CommentsAreAtomic(body, rest);
    }
  }

  // ----------------------------------------------------------- the code itself

  /** The class-bearing selectors of a prelude, as the gate reports them. */
  function ClassBearing(bearing: string -> bool, selectors: seq<string>): seq<string> {
    if selectors == [] then []
    else if bearing(selectors[0]) then [selectors[0]] + ClassBearing(bearing, selectors[1..])
    else ClassBearing(bearing, selectors[1..])
  }

  function Selects(bearing: string -> bool): Selecting {
    (prelude: string) => ClassBearing(bearing, SplitList(prelude))
  }

  method ReportPrelude(bearing: string -> bool, prelude: string, offset: nat, comments: seq<string>, before: seq<Rule>)
    returns (rules: seq<Rule>)
    ensures rules == before + RulesFor(Selects(bearing)(prelude), offset, comments)
  {
    rules := before;
    var selectors := SplitSelectorList(prelude);
    hide SplitList;
    ghost var kept: seq<string> := [];
    for k := 0 to |selectors|
      invariant ClassBearing(bearing, selectors) == kept + ClassBearing(bearing, selectors[k..])
      invariant rules == before + RulesFor(kept, offset, comments)
    {
      assert selectors[k..][1..] == selectors[k + 1..];
      if bearing(selectors[k]) {
        rules := rules + [Rule(selectors[k], offset, comments)];
        kept := kept + [selectors[k]];
      }
    }
  }

  method ReadString(text: string, i: nat) returns (j: nat)
    requires i < |text| && IsQuote(text[i])
    ensures i < j <= |text| + 1
    ensures (if j <= |text| then j else |text|) - i == StringEnd(text[i..], text[i], 1)
  {
    var quote := text[i];
    j := i + 1;
    ghost var s := text[i..];
    while j < |text|
      invariant i < j <= |text| + 1
      invariant StringEnd(s, quote, 1) == StringEnd(s, quote, j - i)
      decreases |text| - j
    {
      if text[j] == '\\' {
        j := j + 2;
        continue;
      }
      if text[j] == quote {
        j := j + 1;
        return;
      }
      j := j + 1;
    }
  }

  /** What the loop does with the token at i: the next state, and where the next token starts. */
  lemma ScanToken(select: Selecting, st: State, text: string, i: nat, t: Token, end: nat)
    requires i < end <= |text| && FirstToken(text[i..]) == t && |t.Text()| == end - i
    ensures Scan(select, st, Tokens(text[i..])) == Scan(select, Step(select, st, t), Tokens(text[end..]))
  {
    hide Step, FirstToken;
    var s := text[i..];
    TokensStep(s);
    assert s[end - i..] == text[end..];
    assert Tokens(s)[1..] == Tokens(text[end..]);
  }

  lemma AtComment(select: Selecting, st: State, text: string, i: nat, end: nat)
    requires i < |text| && StartsComment(text[i..]) && end == i + CommentEnd(text[i..], 2)
    ensures i < end <= |text|
    ensures Scan(select, st, Tokens(text[i..])) == Scan(select, Inlined(st, Comment(text[i..end])), Tokens(text[end..]))
  {
    hide Scan, Tokens;
    assert text[i..][..end - i] == text[i..end];
    ScanToken(select, st, text, i, Comment(text[i..end]), end);
  }

  lemma AtString(select: Selecting, st: State, text: string, i: nat, end: nat)
    requires i < |text| && IsQuote(text[i]) && end == i + StringEnd(text[i..], text[i], 1)
    ensures i < end <= |text|
    ensures Scan(select, st, Tokens(text[i..])) == Scan(select, Inlined(st, Str(text[i..end])), Tokens(text[end..]))
  {
    hide Scan, Tokens;
    assert text[i..][..end - i] == text[i..end];
    ScanToken(select, st, text, i, Str(text[i..end]), end);
  }

  lemma AtMark(select: Selecting, st: State, text: string, i: nat)
    requires i < |text| && !StartsComment(text[i..]) && !IsQuote(text[i])
    ensures Scan(select, st, Tokens(text[i..])) ==
      Scan(select, Step(select, st, FirstToken(text[i..])), Tokens(text[i + 1..]))
  {
    hide Scan, Tokens, Step;
    ScanToken(select, st, text, i, FirstToken(text[i..]), i + 1);
  }

  method ParseRules(bearing: string -> bool, text: string) returns (rules: seq<Rule>)
    ensures rules == ParsedRules(Selects(bearing), text)
  {
    rules := [];
    var stack: seq<string> := [];
    var pendingComments: seq<string> := [];
    var buf: string := [];
    var bufStart: Option<nat> := None;
    var i := 0;
    var n := |text|;
    hide Tokens, Scan, Strip, Selects, Skippable, StringEnd, CommentEnd, RulesFor;
    ghost var select := Selects(bearing);
    ghost var goal := Scan(select, EMPTY, Tokens(text));
    assert text[0..] == text;
    while i < n
      invariant i <= n
      invariant goal == Scan(select, State(rules, stack, pendingComments, buf, bufStart, i), Tokens(text[i..]))
    {
      ghost var st := State(rules, stack, pendingComments, buf, bufStart, i);
      var ch := text[i];
      if ch == '/' && i + 1 < n && text[i + 1] == '*' {
        var end := i + CommentEnd(text[i..], 2);
        AtComment(select, st, text, i, end);
        if bufStart.None? {
          pendingComments := pendingComments + [text[i..end]];
        }
        i := end;
      } else if IsQuote(ch) {
        var j := ReadString(text, i);
        j := if j <= n then j else n;
        AtString(select, st, text, i, j);
        buf := buf + text[i..j];
        i := j;
      } else {
        AtMark(select, st, text, i);
        ghost var next := Step(select, st, FirstToken(text[i..]));
        if ch == '{' {
          rules, stack := OpenBlock(bearing, rules, stack, pendingComments, buf, bufStart, i);
          buf, bufStart, pendingComments := [], None, [];
        } else if ch == '}' {
          if stack != [] {
            stack := stack[..|stack| - 1];
          }
          buf, bufStart, pendingComments := [], None, [];
        } else if ch == ';' {
          buf, bufStart, pendingComments := [], None, [];
        } else {
          if !IsSpace(ch) && bufStart.None? {
            bufStart := Some(i);
          }
          buf := buf + [ch];
        }
        i := i + 1;
        assert next == State(rules, stack, pendingComments, buf, bufStart, i);
      }
    }
    assert text[i..] == [];
    AtEnd(select, State(rules, stack, pendingComments, buf, bufStart, i));
  }

  lemma AtEnd(select: Selecting, st: State)
    ensures Scan(select, st, Tokens([])) == st
  {
  }

  method OpenBlock(bearing: string -> bool, rules: seq<Rule>, stack: seq<string>, comments: seq<string>,
                   buf: string, start: Option<nat>, i: nat)
    returns (rules': seq<Rule>, stack': seq<string>)
    ensures State(rules', stack', [], [], None, i + 1) ==
      Step(Selects(bearing), State(rules, stack, comments, buf, start, i), Open)
  {
    hide Strip, Selects, Skippable, RulesFor;
    var prelude := Strip(buf);
    if !Skippable(stack) && prelude != [] && !IsAtRule(prelude) {
      rules' := ReportPrelude(bearing, prelude, if start.Some? then start.value else i, comments, rules);
      stack' := stack + [""];
    } else {
      rules' := rules;
      assert rules + [] == rules;
      stack' := stack + [if IsAtRule(prelude) then prelude else ""];
    }
  }
}
