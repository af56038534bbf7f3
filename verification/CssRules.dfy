/**
 * What a stylesheet reports, read off its text: comments, strings, heads and
 * blocks as they are written, without the scanner's tokens.
 */
module CssRules {
  import opened Text
  import opened CssSelectors
  import opened CssSheet

  // ------------------------------------------------------------- a sheet as written

  /** A piece of text: plain characters, a string, or a comment. */
  datatype Bit = Chars(s: string) | Quotation(q: char, body: string) | Remark(body: string) {
    function Spelled(): string {
      match this
      case Chars(s) => s
      case Quotation(q, body) => [q] + body + [q]
      case Remark(body) => "/*" + body + "*/"
    }

    /** What of it counts as selector text. */
    function Shown(): string { if Remark? then "" else Spelled() }

    predicate Valid() {
      match this
      case Chars(s) => PlainText(s)
      case Quotation(q, body) => (q == '"' || q == '\'') && StringBody(q, body)
      case Remark(body) => CommentBody(body)
    }

    /** A comment or white space. */
    predicate Quiet() { Remark? || (Chars? && AllSpace(s)) }
  }

  predicate PlainText(s: string) {
    forall i | 0 <= i < |s| :: s[i] !in ['{', '}', ';', '"', '\'', '/']
  }

  function Spelled(bits: seq<Bit>): string {
    if bits == [] then "" else bits[0].Spelled() + Spelled(bits[1..])
  }

  function Shown(bits: seq<Bit>): string {
    if bits == [] then "" else bits[0].Shown() + Shown(bits[1..])
  }

  /** The comments among them, as written. */
  function Remarks(bits: seq<Bit>): seq<string> {
    if bits == [] then [] else (if bits[0].Remark? then [bits[0].Spelled()] else []) + Remarks(bits[1..])
  }

  /** What stands before an opening brace: comments and white space, a visible character, and more. */
  datatype Head = Head(lead: seq<Bit>, first: char, more: seq<Bit>, gap: string) {
    function Bits(): seq<Bit> { lead + ([Chars([first])] + (more + [Chars(gap)])) }

    /** The selector list, or the at-rule. */
    function Name(): string { [first] + Shown(more) }

    predicate Valid() {
      && (forall i | 0 <= i < |Bits()| :: Bits()[i].Valid())
      && (forall i | 0 <= i < |lead| :: lead[i].Quiet())
      && !IsSpace(first) && AllSpace(gap) && !IsSpace(Name()[|Name()| - 1])
    }
  }

  datatype Sheet =
    | End(trail: seq<Bit>)
    | Statement(text: seq<Bit>, next: Sheet)
    | Block(head: Head, inner: Sheet, next: Sheet)
  {
    function Text(): string {
      match this
      case End(trail) => Spelled(trail)
      case Statement(text, next) => Spelled(text) + (";" + next.Text())
      case Block(head, inner, next) => Spelled(head.Bits()) + ("{" + (inner.Text() + ("}" + next.Text())))
    }

    predicate Valid() {
      match this
      case End(trail) => forall i | 0 <= i < |trail| :: trail[i].Valid()
      case Statement(text, next) => (forall i | 0 <= i < |text| :: text[i].Valid()) && next.Valid()
      case Block(head, inner, next) => head.Valid() && inner.Valid() && next.Valid()
    }
  }

  /** The word, in small or capital letters. */
  predicate Says(name: string, word: string) {
    |name| == |word| && forall i | 0 <= i < |word| ::
      name[i] == word[i] || ('a' <= word[i] <= 'z' && name[i] as int == word[i] as int - 32)
  }

  predicate SaysWrapper(name: string) {
    || Says(name, "media") || Says(name, "supports") || Says(name, "layer")
    || Says(name, "container") || Says(name, "scope") || Says(name, "starting-style")
  }

  predicate EndsName(rest: string) { rest == "" || IsSpace(rest[0]) || rest[0] == '(' }

  /** An at-rule whose body holds ordinary rules. */
  ghost predicate Wraps(prelude: string) {
    exists space, name, rest | AllSpace(space) && EndsName(rest) && SaysWrapper(name) ::
      prelude == "@" + space + name + rest
  }

  /** One rule for each selector of a style rule, at its first visible character, with the comments before it. */
  function RulesOf(select: Selecting, head: Head, pos: nat): seq<Rule> {
    var names := select(head.Name());
    seq(|names|, i requires 0 <= i < |names| => Rule(names[i], pos + |Spelled(head.lead)|, Remarks(head.lead)))
  }

  /** What a sheet reports, from the place where it starts. */
  ghost function Reports(select: Selecting, sheet: Sheet, pos: nat): seq<Rule>
    decreases sheet
  {
    match sheet
    case End(_) => []
    case Statement(text, next) => Reports(select, next, pos + |Spelled(text)| + 1)
    case Block(head, inner, next) =>
      var body := pos + |Spelled(head.Bits())| + 1;
      var here :=
        if head.first != '@' then RulesOf(select, head, pos)
        else if Wraps(head.Name()) then Reports(select, inner, body)
        else [];
      here + Reports(select, next, body + |inner.Text()| + 1)
  }

  // ------------------------------------------------------------------- its tokens

  /** Braces and semicolons are tokens of their own, any other character outside strings and comments is plain. */
  lemma TokenOfChar(c: char, rest: string)
    requires c !in ['"', '\''] && !(c == '/' && rest != [] && rest[0] == '*')
    ensures Tokens([c] + rest) ==
      [if c == '{' then Open else if c == '}' then Close else if c == ';' then Semi else Plain(c)] + Tokens(rest)
  {
    var s := [c] + rest;
    assert s[1..] == rest;
    TokensStep(s);
    hide Tokens;
  }

  function Plains(s: string): seq<Token> {
    if s == [] then [] else [Plain(s[0])] + Plains(s[1..])
  }

  lemma {:induction false} TokensOfPlain(s: string, rest: string)
    requires PlainText(s)
    ensures Tokens(s + rest) == Plains(s) + Tokens(rest)
    decreases s
  {
    hide Tokens;
    if s == [] {
      assert s + rest == rest;
    } else {
      TokensOfPlain(s[1..], rest);
      TokenOfChar(s[0], s[1..] + rest);
      assert s + rest == [s[0]] + (s[1..] + rest);
      assert Plains(s) + Tokens(rest) == [Plain(s[0])] + (Plains(s[1..]) + Tokens(rest));
    }
  }

  function BitTokens(b: Bit): seq<Token> {
    match b
    case Chars(s) => Plains(s)
    case Quotation(_, _) => [Str(b.Spelled())]
    case Remark(_) => [Comment(b.Spelled())]
  }

  function AllTokens(bits: seq<Bit>): seq<Token> {
    if bits == [] then [] else BitTokens(bits[0]) + AllTokens(bits[1..])
  }

  lemma TokensOfBit(b: Bit, rest: string)
    requires b.Valid()
    ensures Tokens(b.Spelled() + rest) == BitTokens(b) + Tokens(rest)
  {
    hide Tokens;
    match b
    case Chars(s) => TokensOfPlain(s, rest);
    case Quotation(q, body) => StringsAreAtomic(q, body, rest);
    case Remark(body) => CommentsAreAtomic(body, rest);
  }

  lemma {:induction false} TokensOfBits(bits: seq<Bit>, rest: string)
    requires forall i | 0 <= i < |bits| :: bits[i].Valid()
    ensures Tokens(Spelled(bits) + rest) == AllTokens(bits) + Tokens(rest)
    decreases bits
  {
    hide Tokens, BitTokens, Bit.Spelled, Bit.Valid;
    if bits == [] {
      assert Spelled(bits) + rest == rest;
    } else {
      TokensOfBits(bits[1..], rest);
      TokensOfBit(bits[0], Spelled(bits[1..]) + rest);
      Assoc(bits[0].Spelled(), Spelled(bits[1..]), rest);
      Assoc(BitTokens(bits[0]), AllTokens(bits[1..]), Tokens(rest));
    }
  }

  lemma {:induction false} PlainsRead(s: string)
    ensures AllInline(Plains(s)) && PreludeText(Plains(s)) == s && TextOf(Plains(s)) == s
  {
    if s != [] {
      PlainsRead(s[1..]);
    }
  }

  lemma BitReads(b: Bit)
    ensures AllInline(BitTokens(b)) && PreludeText(BitTokens(b)) == b.Shown() && TextOf(BitTokens(b)) == b.Spelled()
  {
    match b
    case Chars(s) => PlainsRead(s);
    case _ =>
  }

  lemma {:induction false} PreludeConcat(a: seq<Token>, b: seq<Token>)
    ensures PreludeText(a + b) == PreludeText(a) + PreludeText(b)
  {
    if a == [] {
      assert a + b == b;
    } else {
      assert (a + b)[1..] == a[1..] + b;
      PreludeConcat(a[1..], b);
      Assoc(if a[0].Comment? then [] else a[0].Text(), PreludeText(a[1..]), PreludeText(b));
    }
  }

  lemma {:induction false} BitsRead(bits: seq<Bit>)
    ensures AllInline(AllTokens(bits))
    ensures PreludeText(AllTokens(bits)) == Shown(bits) && TextOf(AllTokens(bits)) == Spelled(bits)
  {
    hide BitTokens, Bit.Spelled, Bit.Shown;
    if bits != [] {
      BitReads(bits[0]);
      BitsRead(bits[1..]);
      PreludeConcat(BitTokens(bits[0]), AllTokens(bits[1..]));
      TextOfConcat(BitTokens(bits[0]), AllTokens(bits[1..]));
      hide PreludeText, TextOf;
    }
  }

  // ------------------------------------------------------------------------ heads

  lemma SpaceFirst(c: char, rest: seq<Token>, pos: nat)
    requires IsSpace(c)
    ensures CommentsAbove([Plain(c)] + rest) == CommentsAbove(rest)
    ensures StartIn([Plain(c)] + rest, pos) == StartIn(rest, pos + 1)
  {
    var ts := [Plain(c)] + rest;
    assert ts[0] == Plain(c) && ts[1..] == rest && |ts[0].Text()| == 1;
    hide IsSpace;
    assert [] + CommentsAbove(rest) == CommentsAbove(rest);
  }

  lemma VisibleFirst(c: char, rest: seq<Token>, pos: nat)
    requires !IsSpace(c)
    ensures CommentsAbove([Plain(c)] + rest) == [] && StartIn([Plain(c)] + rest, pos) == Some(pos)
  {
    hide IsSpace;
    var ts := [Plain(c)] + rest;
    assert ts[0] == Plain(c);
  }

  lemma {:induction false} QuietPlains(s: string, rest: seq<Token>, pos: nat)
    requires AllSpace(s)
    ensures CommentsAbove(Plains(s) + rest) == CommentsAbove(rest)
    ensures StartIn(Plains(s) + rest, pos) == StartIn(rest, pos + |s|)
    decreases s
  {
    hide IsSpace, CommentsAbove, StartIn;
    if s == [] {
      assert Plains(s) + rest == rest;
    } else {
      QuietPlains(s[1..], rest, pos + 1);
      SpaceFirst(s[0], Plains(s[1..]) + rest, pos);
      Assoc([Plain(s[0])], Plains(s[1..]), rest);
    }
  }

  lemma QuietBit(b: Bit, rest: seq<Token>, pos: nat)
    requires b.Quiet()
    ensures CommentsAbove(BitTokens(b) + rest) == (if b.Remark? then [b.Spelled()] else []) + CommentsAbove(rest)
    ensures StartIn(BitTokens(b) + rest, pos) == StartIn(rest, pos + |b.Spelled()|)
  {
    match b
    case Chars(s) => QuietPlains(s, rest, pos);
    case Remark(body) =>
      assert (BitTokens(b) + rest)[1..] == rest;
  }

  /** Comments and white space before the first visible character only move it, and the comments are kept. */
  lemma {:induction false} QuietBits(bits: seq<Bit>, rest: seq<Token>, pos: nat)
    requires forall i | 0 <= i < |bits| :: bits[i].Quiet()
    ensures CommentsAbove(AllTokens(bits) + rest) == Remarks(bits) + CommentsAbove(rest)
    ensures StartIn(AllTokens(bits) + rest, pos) == StartIn(rest, pos + |Spelled(bits)|)
    decreases bits
  {
    hide BitTokens, Bit.Spelled, Bit.Quiet, CommentsAbove, StartIn;
    if bits == [] {
      assert AllTokens(bits) + rest == rest && Remarks(bits) + CommentsAbove(rest) == CommentsAbove(rest);
    } else {
      var b, later := bits[0], AllTokens(bits[1..]) + rest;
      QuietBit(b, later, pos);
      QuietBits(bits[1..], rest, pos + |b.Spelled()|);
      BitsUnfold(bits);
      hide AllTokens, Remarks, Spelled;
      Assoc(BitTokens(b), AllTokens(bits[1..]), rest);
      Assoc(if b.Remark? then [b.Spelled()] else [], Remarks(bits[1..]), CommentsAbove(rest));
    }
  }

  lemma BitsUnfold(bits: seq<Bit>)
    requires bits != []
    ensures AllTokens(bits) == BitTokens(bits[0]) + AllTokens(bits[1..])
    ensures Remarks(bits) == (if bits[0].Remark? then [bits[0].Spelled()] else []) + Remarks(bits[1..])
    ensures |Spelled(bits)| == |bits[0].Spelled()| + |Spelled(bits[1..])|
  {
    hide BitTokens, Bit.Spelled;
  }

  lemma {:induction false} TokensConcat(a: seq<Bit>, b: seq<Bit>)
    ensures AllTokens(a + b) == AllTokens(a) + AllTokens(b)
  {
    hide BitTokens;
    if a == [] {
      assert a + b == b;
    } else {
      assert (a + b)[1..] == a[1..] + b;
      TokensConcat(a[1..], b);
      Assoc(BitTokens(a[0]), AllTokens(a[1..]), AllTokens(b));
    }
  }

  lemma {:induction false} ShownConcat(a: seq<Bit>, b: seq<Bit>)
    ensures Shown(a + b) == Shown(a) + Shown(b)
  {
    hide Bit.Shown;
    if a == [] {
      assert a + b == b;
    } else {
      assert (a + b)[1..] == a[1..] + b;
      ShownConcat(a[1..], b);
      Assoc(a[0].Shown(), Shown(a[1..]), Shown(b));
    }
  }

  lemma {:induction false} QuietShows(bits: seq<Bit>)
    requires forall i | 0 <= i < |bits| :: bits[i].Quiet()
    ensures AllSpace(Shown(bits))
  {
    if bits != [] {
      QuietShows(bits[1..]);
      hide IsSpace;
    }
  }

  lemma ShownOne(b: Bit)
    ensures Shown([b]) == b.Shown() && AllTokens([b]) == BitTokens(b)
  {
    assert [b][1..] == [];
    assert Shown([]) == "" && AllTokens([]) == [];
  }

  lemma OnePlain(c: char)
    ensures BitTokens(Chars([c])) == [Plain(c)]
  {
    assert [c][1..] == [];
    assert Plains([]) == [];
  }

  /** The prelude of a head is its name, its start the first visible character, its comments those before. */
  lemma HeadReads(head: Head, pos: nat)
    requires head.Valid()
    ensures var pre := AllTokens(head.Bits());
      && Strip(PreludeText(pre)) == head.Name()
      && StartIn(pre, pos) == Some(pos + |Spelled(head.lead)|)
      && CommentsAbove(pre) == Remarks(head.lead)
  {
    var mid := [Chars([head.first])] + (head.more + [Chars(head.gap)]);
    assert head.Bits() == head.lead + mid;
    HeadName(head);
    HeadStart(head, mid, pos);
  }

  lemma HeadName(head: Head)
    requires head.Valid()
    ensures Strip(PreludeText(AllTokens(head.Bits()))) == head.Name()
  {
    HeadShows(head);
    QuietShows(head.lead);
    BitsRead(head.Bits());
    NameFirst(head);
    hide Strip, IsSpace, AllTokens, Shown, PreludeText, TextOf, Spelled, Head.Bits;
    StripOfPadded(Shown(head.lead), head.Name(), head.gap);
  }

  lemma HeadShows(head: Head)
    ensures Shown(head.Bits()) == Shown(head.lead) + head.Name() + head.gap
  {
    var last, first := Chars(head.gap), Chars([head.first]);
    ShownOne(last);
    ShownOne(first);
    hide Shown, AllTokens;
    ShownConcat(head.lead, [first] + (head.more + [last]));
    ShownConcat([first], head.more + [last]);
    ShownConcat(head.more, [last]);
    ShownJoins(Shown(head.lead), [head.first], Shown(head.more), head.gap);
  }

  lemma ShownJoins(a: string, b: string, c: string, d: string)
    ensures a + (b + (c + d)) == a + (b + c) + d
  {
  }

  lemma HeadStart(head: Head, mid: seq<Bit>, pos: nat)
    requires head.Valid() && mid == [Chars([head.first])] + (head.more + [Chars(head.gap)])
    ensures StartIn(AllTokens(head.lead + mid), pos) == Some(pos + |Spelled(head.lead)|)
    ensures CommentsAbove(AllTokens(head.lead + mid)) == Remarks(head.lead)
  {
    hide CommentsAbove, StartIn, IsSpace, AllTokens, Remarks, Spelled, BitTokens, Shown, Bit.Valid;
    TokensConcat(head.lead, mid);
    QuietBits(head.lead, AllTokens(mid), pos);
    var rest := AllTokens(head.more + [Chars(head.gap)]);
    TokensConcat([Chars([head.first])], head.more + [Chars(head.gap)]);
    ShownOne(Chars([head.first]));
    OnePlain(head.first);
    VisibleFirst(head.first, rest, pos + |Spelled(head.lead)|);
    assert Remarks(head.lead) + [] == Remarks(head.lead);
  }

  // -------------------------------------------------------------- nesting at-rules

  lemma {:induction false} NameIsLeading(name: string, rest: string)
    requires EndsName(rest) && forall i | 0 <= i < |name| :: !IsSpace(name[i]) && name[i] != '('
    ensures LeadingName(name + rest) == name
    decreases name
  {
    hide IsSpace;
    if name == [] {
      assert name + rest == rest;
    } else {
      assert (name + rest)[1..] == name[1..] + rest;
      NameIsLeading(name[1..], rest);
    }
  }

  lemma {:induction false} LeadingSplits(s: string)
    ensures LeadingName(s) <= s && EndsName(s[|LeadingName(s)|..])
  {
    hide IsSpace;
    if s != [] && !IsSpace(s[0]) && s[0] != '(' {
      LeadingSplits(s[1..]);
      assert s[|LeadingName(s)|..] == s[1..][|LeadingName(s[1..])|..];
    }
  }

  lemma SaysIsLower(name: string, word: string)
    requires forall i | 0 <= i < |word| :: 'a' <= word[i] <= 'z' || word[i] == '-'
    ensures Lower(name) == word <==> Says(name, word)
    ensures Says(name, word) ==> forall i | 0 <= i < |name| :: !IsSpace(name[i]) && name[i] != '('
  {
    assert Says(name, word) ==> forall i | 0 <= i < |name| ::
      'a' <= name[i] <= 'z' || 'A' <= name[i] <= 'Z' || name[i] == '-';
    forall i | 0 <= i < |name| ensures Lower(name)[i] == LowerChar(name[i]) { }
    if Lower(name) == word {
      forall i | 0 <= i < |word|
        ensures name[i] == word[i] || ('a' <= word[i] <= 'z' && name[i] as int == word[i] as int - 32)
      {
        assert LowerChar(name[i]) == word[i];
      }
    }
    if Says(name, word) {
      assert |Lower(name)| == |word|;
      assert forall i | 0 <= i < |word| :: Lower(name)[i] == word[i];
    }
  }

  lemma WrapperIsLower(name: string)
    ensures Lower(name) in NESTING_AT_RULES <==> SaysWrapper(name)
    ensures SaysWrapper(name) ==> forall i | 0 <= i < |name| :: !IsSpace(name[i]) && name[i] != '('
  {
    hide Lower, Says, IsSpace;
    SaysIsLower(name, "media");
    SaysIsLower(name, "supports");
    SaysIsLower(name, "layer");
    SaysIsLower(name, "container");
    SaysIsLower(name, "scope");
    SaysIsLower(name, "starting-style");
  }

  /** The at-rules whose bodies are looked into are exactly the six, however they are capitalised. */
  lemma NestingIsWraps(prelude: string)
    ensures IsNesting(prelude) <==> Wraps(prelude)
  {
    hide IsSpace, SaysWrapper, LeadingName, TrimLeft, Lower;
    if IsNesting(prelude) {
      var t := prelude[1..];
      var space := TrimLeftSplit(t);
      var name := LeadingName(TrimLeft(t));
      LeadingSplits(TrimLeft(t));
      WrapperIsLower(name);
      var rest := TrimLeft(t)[|name|..];
      assert prelude == "@" + space + name + rest;
    }
    if Wraps(prelude) {
      var space, name, rest :| AllSpace(space) && EndsName(rest) && SaysWrapper(name)
        && prelude == "@" + space + name + rest;
      WrapperIsLower(name);
      WrapperNests(space, name, rest);
    }
  }

  lemma WrapperNests(space: string, name: string, rest: string)
    requires AllSpace(space) && EndsName(rest) && SaysWrapper(name)
    requires forall i | 0 <= i < |name| :: !IsSpace(name[i]) && name[i] != '('
    ensures IsNesting("@" + space + name + rest)
  {
    WrapperIsLower(name);
    NotEmpty(name);
    hide IsSpace, SaysWrapper, Lower, LeadingName, TrimLeft;
    AfterAt(space, name, rest);
    TrimLeftOfPadded(space, name + rest);
    NoSpaceFirst(name + rest);
    NameIsLeading(name, rest);
  }

  lemma AfterAt(space: string, name: string, rest: string)
    ensures var prelude := "@" + space + name + rest;
      prelude[0] == '@' && prelude[1..] == space + (name + rest)
  {
  }

  lemma NoSpaceFirst(s: string)
    requires s != [] && !IsSpace(s[0])
    ensures TrimLeft(s) == s
  {
  }

  lemma NotEmpty(name: string)
    requires SaysWrapper(name)
    ensures name != []
  {
  }

  // ------------------------------------------------------------------- whole sheets

  function ItemsOf(sheet: Sheet): seq<Item> {
    match sheet
    case End(_) => []
    case Statement(text, next) => [Item.Statement(AllTokens(text))] + ItemsOf(next)
    case Block(head, inner, next) =>
      [Item.Block(AllTokens(head.Bits()), ItemsOf(inner), TailOf(inner))] + ItemsOf(next)
  }

  function TailOf(sheet: Sheet): seq<Token> {
    match sheet case End(trail) => AllTokens(trail) case _ => TailOf(sheet.next)
  }

  lemma {:induction false} SheetIsWellFormed(sheet: Sheet)
    ensures (forall i | 0 <= i < |ItemsOf(sheet)| :: WellFormed(ItemsOf(sheet)[i])) && AllInline(TailOf(sheet))
  {
    match sheet
    case End(trail) => BitsRead(trail);
    case Statement(text, next) =>
      BitsRead(text);
      SheetIsWellFormed(next);
    case Block(head, inner, next) =>
      BitsRead(head.Bits());
      SheetIsWellFormed(inner);
      SheetIsWellFormed(next);
  }

  lemma {:induction false} TokensOfSheet(sheet: Sheet, rest: string)
    requires sheet.Valid()
    ensures Tokens(sheet.Text() + rest) == RenderAll(ItemsOf(sheet)) + TailOf(sheet) + Tokens(rest)
    decreases sheet
  {
    match sheet
    case End(trail) =>
      TokensOfBits(trail, rest);
      assert RenderAll([]) + TailOf(sheet) == TailOf(sheet);
    case Statement(text, next) =>
      TokensOfSheet(next, rest);
      StatementTokens(text, next, rest);
    case Block(head, inner, next) =>
      TokensOfSheet(next, rest);
      TokensOfSheet(inner, "}" + (next.Text() + rest));
      BlockTokens(head, inner, next, rest);
  }

  lemma StatementTokens(text: seq<Bit>, next: Sheet, rest: string)
    requires forall i | 0 <= i < |text| :: text[i].Valid()
    requires Tokens(next.Text() + rest) == RenderAll(ItemsOf(next)) + TailOf(next) + Tokens(rest)
    ensures var sheet := Sheet.Statement(text, next);
      Tokens(sheet.Text() + rest) == RenderAll(ItemsOf(sheet)) + TailOf(sheet) + Tokens(rest)
  {
    var sheet, item := Sheet.Statement(text, next), Item.Statement(AllTokens(text));
    var after := next.Text() + rest;
    TokensOfBits(text, ";" + after);
    TokenOfChar(';', after);
    RenderCons(item, ItemsOf(next));
    assert Render(item) == AllTokens(text) + [Semi];
    assert ItemsOf(sheet) == [item] + ItemsOf(next) && TailOf(sheet) == TailOf(next);
    assert sheet.Text() == Spelled(text) + (";" + next.Text());
    hide Tokens, RenderAll, Render, AllTokens, ItemsOf, TailOf, Spelled, Sheet.Text;
    StatementJoins(Spelled(text), ";", next.Text(), rest);
    StatementJoins(AllTokens(text), [Semi], RenderAll(ItemsOf(next)) + TailOf(next), Tokens(rest));
    Assoc(AllTokens(text) + [Semi], RenderAll(ItemsOf(next)), TailOf(next));
  }

  lemma StatementJoins<T>(a: seq<T>, b: seq<T>, c: seq<T>, d: seq<T>)
    ensures a + (b + c) + d == a + (b + (c + d)) && a + b + c + d == a + (b + (c + d))
  {
  }

  lemma BlockTokens(head: Head, inner: Sheet, next: Sheet, rest: string)
    requires head.Valid()
    requires Tokens(next.Text() + rest) == RenderAll(ItemsOf(next)) + TailOf(next) + Tokens(rest)
    requires var after := "}" + (next.Text() + rest);
      Tokens(inner.Text() + after) == RenderAll(ItemsOf(inner)) + TailOf(inner) + Tokens(after)
    ensures var sheet := Sheet.Block(head, inner, next);
      Tokens(sheet.Text() + rest) == RenderAll(ItemsOf(sheet)) + TailOf(sheet) + Tokens(rest)
  {
    hide Tokens, RenderAll, AllTokens, ItemsOf, TailOf, Spelled, Sheet.Text, Head.Bits;
    var sheet := Sheet.Block(head, inner, next);
    var pre, after := AllTokens(head.Bits()), "}" + (next.Text() + rest);
    var within, more := RenderAll(ItemsOf(inner)), RenderAll(ItemsOf(next));
    BlockSpelled(head, inner, next);
    TokensOfBits(head.Bits(), "{" + (inner.Text() + after));
    TokenOfChar('{', inner.Text() + after);
    TokenOfChar('}', next.Text() + rest);
    TextJoins(Spelled(head.Bits()), inner.Text(), next.Text(), rest);
    BlockJoins(pre, within, TailOf(inner), more, TailOf(next), Tokens(rest));
  }

  lemma BlockSpelled(head: Head, inner: Sheet, next: Sheet)
    ensures var (sheet, pre) := (Sheet.Block(head, inner, next), AllTokens(head.Bits()));
      && sheet.Text() == Spelled(head.Bits()) + ("{" + (inner.Text() + ("}" + next.Text())))
      && TailOf(sheet) == TailOf(next)
      && RenderAll(ItemsOf(sheet)) ==
           pre + ([Open] + (RenderAll(ItemsOf(inner)) + (TailOf(inner) + [Close]))) + RenderAll(ItemsOf(next))
  {
    hide AllTokens, Spelled, Head.Bits, RenderAll;
    var item := Item.Block(AllTokens(head.Bits()), ItemsOf(inner), TailOf(inner));
    RenderCons(item, ItemsOf(next));
    assert ItemsOf(Sheet.Block(head, inner, next)) == [item] + ItemsOf(next);
    hide ItemsOf;
  }

  lemma TextJoins(head: string, inner: string, next: string, rest: string)
    ensures head + ("{" + (inner + ("}" + next))) + rest == head + ("{" + (inner + ("}" + (next + rest))))
  {
  }

  lemma BlockJoins(pre: seq<Token>, within: seq<Token>, tail: seq<Token>, more: seq<Token>, last: seq<Token>,
                   rest: seq<Token>)
    ensures pre + ([Open] + (within + tail + ([Close] + (more + last + rest))))
         == pre + ([Open] + (within + (tail + [Close]))) + more + last + rest
  {
  }

  predicate AllNesting(ancestors: seq<string>) { forall i | 0 <= i < |ancestors| :: IsNesting(ancestors[i]) }

  /** What the block tree of a sheet declares is what the sheet reports, read off its text. */
  lemma {:induction false} TreeReports(select: Selecting, sheet: Sheet, ancestors: seq<string>, pos: nat)
    requires sheet.Valid()
    ensures DeclaresAll(select, BlocksIn(ItemsOf(sheet), ancestors, pos)) ==
      if AllNesting(ancestors) then Reports(select, sheet, pos) else []
    decreases sheet
  {
    hide Declares, DeclaresAll, BlocksIn, AllNesting, Head.Valid, Sheet.Text, Head.Bits, Head.Name, Spelled;
    match sheet
    case End(_) => NothingReported(select, ancestors, pos);
    case Statement(text, next) =>
      StatementReports(select, text, next, ancestors, pos);
      TreeReports(select, next, ancestors, pos + |Spelled(text)| + 1);
    case Block(head, inner, next) =>
      var body := pos + |Spelled(head.Bits())| + 1;
      TreeReports(select, inner, ancestors + [head.Name()], body);
      TreeReports(select, next, ancestors, body + |inner.Text()| + 1);
      BlockReports(select, head, inner, next, ancestors, pos);
  }

  lemma NothingReported(select: Selecting, ancestors: seq<string>, pos: nat)
    ensures DeclaresAll(select, BlocksIn([], ancestors, pos)) == []
  {
  }

  lemma RenderedLength(sheet: Sheet)
    requires sheet.Valid()
    ensures TextOf(RenderAll(ItemsOf(sheet)) + TailOf(sheet)) == sheet.Text()
  {
    TokensOfSheet(sheet, "");
    assert sheet.Text() + "" == sheet.Text();
    assert Tokens("") == [];
    assert RenderAll(ItemsOf(sheet)) + TailOf(sheet) + [] == RenderAll(ItemsOf(sheet)) + TailOf(sheet);
    TokensLossless(sheet.Text());
  }

  lemma StatementReports(select: Selecting, text: seq<Bit>, next: Sheet, ancestors: seq<string>, pos: nat)
    ensures BlocksIn(ItemsOf(Sheet.Statement(text, next)), ancestors, pos) ==
      BlocksIn(ItemsOf(next), ancestors, pos + |Spelled(text)| + 1)
  {
    hide Spelled, AllTokens, TextOf, BlocksIn;
    var item := Item.Statement(AllTokens(text));
    BitsRead(text);
    TextOfConcat(AllTokens(text), [Semi]);
    SemiText();
    assert TextOf(Render(item)) == Spelled(text) + ";";
    hide Render, PreludeText, Shown;
    StatementUnfolds(item, ItemsOf(next), ancestors, pos);
    assert ItemsOf(Sheet.Statement(text, next)) == [item] + ItemsOf(next);
    hide ItemsOf;
  }

  lemma StatementUnfolds(item: Item, items: seq<Item>, ancestors: seq<string>, pos: nat)
    requires item.Statement?
    ensures BlocksIn([item] + items, ancestors, pos) == BlocksIn(items, ancestors, pos + |TextOf(Render(item))|)
  {
    hide TextOf, Render;
    var all := [item] + items;
    assert all[0] == item && all[1..] == items && Blocks(item, ancestors, pos) == [];
  }

  lemma SemiText()
    ensures TextOf([Semi]) == ";" && TextOf([Open]) == "{" && TextOf([Close]) == "}"
  {
    assert TextOf([]) == "";
  }

  lemma BlockLengths(head: Head, inner: Sheet)
    requires inner.Valid()
    ensures var item := Item.Block(AllTokens(head.Bits()), ItemsOf(inner), TailOf(inner));
      && |TextOf(AllTokens(head.Bits()))| == |Spelled(head.Bits())|
      && |TextOf(Render(item))| == |Spelled(head.Bits())| + 1 + |inner.Text()| + 1
  {
    var pre, within, tail := AllTokens(head.Bits()), RenderAll(ItemsOf(inner)), TailOf(inner);
    BitsRead(head.Bits());
    RenderedLength(inner);
    SemiText();
    assert Render(Item.Block(pre, ItemsOf(inner), tail)) == pre + ([Open] + (within + (tail + [Close])));
    hide TextOf, Render, RenderAll, ItemsOf, TailOf, AllTokens, Spelled, Sheet.Text, Head.Bits;
    TextOfConcat(pre, [Open] + (within + (tail + [Close])));
    TextOfConcat([Open], within + (tail + [Close]));
    Assoc(within, tail, [Close]);
    TextOfConcat(within + tail, [Close]);
  }

  lemma BlockReports(select: Selecting, head: Head, inner: Sheet, next: Sheet, ancestors: seq<string>, pos: nat)
    requires head.Valid() && inner.Valid()
    requires var body := pos + |Spelled(head.Bits())| + 1;
      && DeclaresAll(select, BlocksIn(ItemsOf(inner), ancestors + [head.Name()], body)) ==
           (if AllNesting(ancestors + [head.Name()]) then Reports(select, inner, body) else [])
      && DeclaresAll(select, BlocksIn(ItemsOf(next), ancestors, body + |inner.Text()| + 1)) ==
           if AllNesting(ancestors) then Reports(select, next, body + |inner.Text()| + 1) else []
    ensures DeclaresAll(select, BlocksIn(ItemsOf(Sheet.Block(head, inner, next)), ancestors, pos)) ==
      if AllNesting(ancestors) then Reports(select, Sheet.Block(head, inner, next), pos) else []
  {
    hide Declares, DeclaresAll, IsNesting, Wraps, BlocksIn, ItemsOf, Spelled, AllTokens, Sheet.Text, Head.Bits;
    hide AllNesting, Head.Name, Head.Valid, RulesOf, Reports, Sheet.Valid;
    var pre, body := AllTokens(head.Bits()), pos + |Spelled(head.Bits())| + 1;
    var o := Occurrence(ancestors, pre, pos);
    var deeper := BlocksIn(ItemsOf(inner), ancestors + [head.Name()], body);
    var later := BlocksIn(ItemsOf(next), ancestors, body + |inner.Text()| + 1);
    BlockUnfolds(head, inner, next, ancestors, pos);
    ReportedUnfolds(select, head, inner, next, pos);
    DeclaresConcat(select, [o] + deeper, later);
    DeclaresConcat(select, [o], deeper);
    OneDeclares(select, o);
    NestingIsWraps(head.Name());
    HeadDeclares(select, head, ancestors, pos);
    NestedIn(ancestors, head);
  }

  lemma ReportedUnfolds(select: Selecting, head: Head, inner: Sheet, next: Sheet, pos: nat)
    ensures var body := pos + |Spelled(head.Bits())| + 1;
      Reports(select, Sheet.Block(head, inner, next), pos) ==
        (if head.first != '@' then RulesOf(select, head, pos)
         else if Wraps(head.Name()) then Reports(select, inner, body)
         else []) + Reports(select, next, body + |inner.Text()| + 1)
  {
    hide Spelled, Sheet.Text, Head.Bits, Head.Name, RulesOf, Wraps;
  }

  lemma NestedIn(ancestors: seq<string>, head: Head)
    ensures AllNesting(ancestors + [head.Name()]) <==> AllNesting(ancestors) && IsNesting(head.Name())
    ensures IsNesting(head.Name()) ==> head.first == '@'
  {
    var all := ancestors + [head.Name()];
    assert all[|ancestors|] == head.Name() && forall i | 0 <= i < |ancestors| :: all[i] == ancestors[i];
    assert head.Name()[0] == head.first;
    hide LeadingName, Lower, TrimLeft;
  }

  lemma OneDeclares(select: Selecting, o: Occurrence)
    ensures DeclaresAll(select, [o]) == Declares(select, o)
  {
    assert DeclaresAll(select, []) == [];
  }

  lemma BlockUnfolds(head: Head, inner: Sheet, next: Sheet, ancestors: seq<string>, pos: nat)
    requires head.Valid() && inner.Valid()
    ensures var (pre, body) := (AllTokens(head.Bits()), pos + |Spelled(head.Bits())| + 1);
      BlocksIn(ItemsOf(Sheet.Block(head, inner, next)), ancestors, pos) ==
        [Occurrence(ancestors, pre, pos)] + BlocksIn(ItemsOf(inner), ancestors + [head.Name()], body)
        + BlocksIn(ItemsOf(next), ancestors, body + |inner.Text()| + 1)
  {
    hide AllTokens, Spelled, Sheet.Text, Head.Bits, Head.Name, Head.Valid, PreludeText, Strip, TextOf;
    hide StartIn, CommentsAbove, Render, Sheet.Valid, BlocksIn;
    var item := Item.Block(AllTokens(head.Bits()), ItemsOf(inner), TailOf(inner));
    HeadReads(head, pos);
    BlockLengths(head, inner);
    ItemsUnfold(item, ItemsOf(next), ancestors, pos);
    assert ItemsOf(Sheet.Block(head, inner, next)) == [item] + ItemsOf(next);
    hide ItemsOf, TailOf;
  }

  lemma ItemsUnfold(item: Item, items: seq<Item>, ancestors: seq<string>, pos: nat)
    requires item.Block?
    ensures BlocksIn([item] + items, ancestors, pos) ==
      [Occurrence(ancestors, item.pre, pos)]
      + BlocksIn(item.body, ancestors + [Strip(PreludeText(item.pre))], pos + |TextOf(item.pre)| + 1)
      + BlocksIn(items, ancestors, pos + |TextOf(Render(item))|)
  {
    hide TextOf, Render, Strip, PreludeText;
    var all := [item] + items;
    assert all[0] == item && all[1..] == items;
  }

  lemma NameFirst(head: Head)
    ensures head.Name() != [] && head.Name()[0] == head.first
  {
  }

  /** A head contributes its selectors when it is a style rule and nothing around it hides it. */
  lemma HeadDeclares(select: Selecting, head: Head, ancestors: seq<string>, pos: nat)
    requires head.Valid()
    ensures Declares(select, Occurrence(ancestors, AllTokens(head.Bits()), pos)) ==
      if head.first == '@' || !AllNesting(ancestors) then [] else RulesOf(select, head, pos)
  {
    hide Strip, PreludeText, StartIn, CommentsAbove, AllTokens, IsNesting, Head.Bits, Spelled, Remarks, TextOf, Shown;
    HeadReads(head, pos);
    NameFirst(head);
    hide Head.Name, Head.Valid;
  }

  /** A stylesheet reports what is read off its text. */
  lemma SheetReports(select: Selecting, sheet: Sheet)
    requires sheet.Valid()
    ensures ParsedRules(select, sheet.Text()) == Reports(select, sheet, 0)
  {
    TokensOfSheet(sheet, "");
    assert sheet.Text() + "" == sheet.Text();
    assert Tokens("") == [];
    assert RenderAll(ItemsOf(sheet)) + TailOf(sheet) + [] == RenderAll(ItemsOf(sheet)) + TailOf(sheet);
    SheetIsWellFormed(sheet);
    SheetReportsItsTree(select, sheet.Text(), ItemsOf(sheet), TailOf(sheet));
    TreeReports(select, sheet, [], 0);
  }

  // ------------------------------------------------------- text that does not close

  /** A string that is not closed is one token, up to the end of the text. */
  lemma OpenString(q: char, body: string)
    requires (q == '"' || q == '\'') && StringBody(q, body)
    ensures Tokens([q] + body) == [Str([q] + body)]
    ensures Tokens([q] + body + "\\") == [Str([q] + body + "\\")]
  {
    StringRunsOut(q, [q] + body, 1, body);
    StringRunsOut(q, [q] + body + "\\", 1, body);
    var s, t := [q] + body, [q] + body + "\\";
    assert s[..|s|] == s && t[..|t|] == t;
    assert s[|s|..] == [] && t[|t|..] == [];
    TokensStep(s);
    TokensStep(t);
    assert Tokens([]) == [];
    hide Tokens;
  }

  lemma {:induction false} StringRunsOut(q: Quote, s: string, k: nat, body: string)
    requires k <= |s| && (s[k..] == body || s[k..] == body + "\\") && StringBody(q, body)
    ensures StringEnd(s, q, k) == |s|
    decreases body
  {
    if k < |s| {
      assert s[k] == s[k..][0];
      if body != [] {
        var n := if body[0] == '\\' then 2 else 1;
        assert s[k + n..] == s[k..][n..];
        StringRunsOut(q, s, k + n, body[n..]);
      }
    }
  }

  /** A comment that is not closed is one token, up to the end of the text. */
  lemma OpenComment(body: string)
    requires CommentBody(body)
    ensures Tokens("/*" + body) == [Comment("/*" + body)]
  {
    var s := "/*" + body;
    CommentRunsOut(s, 2, body);
    assert s[..|s|] == s && s[|s|..] == [];
    TokensStep(s);
    assert Tokens([]) == [];
    hide Tokens;
  }

  lemma {:induction false} CommentRunsOut(s: string, k: nat, body: string)
    requires k <= |s| && s[k..] == body && CommentBody(body)
    ensures CommentEnd(s, k) == |s|
    decreases body
  {
    if k + 1 < |s| {
      assert s[k] == body[0] && s[k + 1] == body[1];
      assert s[k + 1..] == body[1..];
      CommentRunsOut(s, k + 1, body[1..]);
    }
  }

  // --------------------------------------------------------------- which are reported

  /** A prelude reports the class-bearing parts of its selector list: every one of them, and in order. */
  lemma {:induction false} ClassBearingKeeps(bearing: string -> bool, a: seq<string>, x: string, b: seq<string>)
    ensures ClassBearing(bearing, a + [x] + b) ==
      ClassBearing(bearing, a) + (if bearing(x) then [x] else []) + ClassBearing(bearing, b)
    decreases a
  {
    var xs := a + [x] + b;
    if a == [] {
      assert xs[0] == x && xs[1..] == b;
    } else {
      assert xs[0] == a[0] && xs[1..] == a[1..] + [x] + b;
      ClassBearingKeeps(bearing, a[1..], x, b);
    }
  }
}
