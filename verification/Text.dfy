/** Strings as the tools see them: Python's whitespace, trimming, joining and case folding. */
module Text {

  datatype Option<+T> = None | Some(value: T)

  /** The characters for which Python's `str.isspace` holds; `strip` and `split` use the same set. */
  predicate IsSpace(c: char) {
    || '\t' <= c <= '\r'
    || '\U{1C}' <= c <= ' '
    || c == '\U{85}' || c == '\U{A0}' || c == '\U{1680}'
    || '\U{2000}' <= c <= '\U{200A}'
    || c == '\U{2028}' || c == '\U{2029}' || c == '\U{202F}' || c == '\U{205F}' || c == '\U{3000}'
  }

  predicate AllSpace(s: string) {
    forall i | 0 <= i < |s| :: IsSpace(s[i])
  }

  function TrimLeft(s: string): (r: string) {
    if s != [] && IsSpace(s[0]) then TrimLeft(s[1..]) else s
  }

  function TrimRight(s: string): (r: string) {
    if s != [] && IsSpace(s[|s| - 1]) then TrimRight(s[..|s| - 1]) else s
  }

  lemma {:induction false} TrimLeftSplit(s: string) returns (w: string)
    ensures AllSpace(w) && s == w + TrimLeft(s)
    ensures TrimLeft(s) != [] ==> !IsSpace(TrimLeft(s)[0])
  {
    if s != [] && IsSpace(s[0]) {
      w := TrimLeftSplit(s[1..]);
      w := [s[0]] + w;
    } else {
      w := [];
    }
  }

  lemma {:induction false} TrimRightSplit(s: string) returns (w: string)
    ensures AllSpace(w) && s == TrimRight(s) + w
    ensures TrimRight(s) != [] ==> !IsSpace(TrimRight(s)[|TrimRight(s)| - 1])
  {
    if s != [] && IsSpace(s[|s| - 1]) {
      w := TrimRightSplit(s[..|s| - 1]);
      w := w + [s[|s| - 1]];
    } else {
      w := [];
    }
  }

  /** `str.strip()`. */
  function Strip(s: string): (r: string) {
    TrimLeft(TrimRight(s))
  }

  lemma {:induction false} TrimLeftOfPadded(w: string, s: string)
    requires AllSpace(w)
    ensures TrimLeft(w + s) == TrimLeft(s)
  {
    if w == [] {
      assert w + s == s;
    } else {
      assert (w + s)[1..] == w[1..] + s;
      TrimLeftOfPadded(w[1..], s);
    }
  }

  lemma {:induction false} TrimRightOfPadded(s: string, w: string)
    requires AllSpace(w)
    ensures TrimRight(s + w) == TrimRight(s)
  {
    if w == [] {
      assert s + w == s;
    } else {
      assert (s + w)[..|s + w| - 1] == s + w[..|w| - 1];
      TrimRightOfPadded(s, w[..|w| - 1]);
    }
  }

  /** A text that is empty or bounded by visible characters is its own trimming. */
  lemma StripOfTrimmed(s: string)
    requires s == [] || (!IsSpace(s[0]) && !IsSpace(s[|s| - 1]))
    ensures Strip(s) == s
  {
  }

  lemma StripIsTrimmed(s: string)
    ensures var r := Strip(s); r == [] || (!IsSpace(r[0]) && !IsSpace(r[|r| - 1]))
  {
    var t := TrimRight(s);
    var _ := TrimRightSplit(s);
    var w := TrimLeftSplit(t);
    if TrimLeft(t) != [] {
      assert t[|t| - 1] == TrimLeft(t)[|TrimLeft(t)| - 1];
    }
  }

  /** `sep.join(parts)`. */
  function Join(sep: string, parts: seq<string>): (r: string) {
    if parts == [] then []
    else if |parts| == 1 then parts[0]
    else parts[0] + sep + Join(sep, parts[1..])
  }

  /** The visible characters of a text, in order. */
  function Visible(s: string): (r: string) {
    if s == [] then []
    else Visible(s[..|s| - 1]) + (if IsSpace(s[|s| - 1]) then [] else [s[|s| - 1]])
  }

  lemma {:induction false} VisibleConcat(a: string, b: string)
    ensures Visible(a + b) == Visible(a) + Visible(b)
  {
    if b == [] {
      assert a + b == a;
    } else {
      assert (a + b)[..|a + b| - 1] == a + b[..|b| - 1];
      VisibleConcat(a, b[..|b| - 1]);
    }
  }

  lemma {:induction false} VisibleOfSpace(w: string)
    requires AllSpace(w)
    ensures Visible(w) == []
  {
    if w != [] {
      VisibleOfSpace(w[..|w| - 1]);
    }
  }

  lemma VisibleOfStrip(s: string)
    ensures Visible(Strip(s)) == Visible(s)
  {
    var t := TrimRight(s);
    var v := TrimRightSplit(s);
    VisibleConcat(t, v);
    VisibleOfSpace(v);
    var w := TrimLeftSplit(t);
    VisibleConcat(w, TrimLeft(t));
    VisibleOfSpace(w);
  }

  /** ASCII lower case; enough for every comparison the tools make against ASCII words. */
  function Lower(s: string): (r: string) {
    seq(|s|, i requires 0 <= i < |s| => LowerChar(s[i]))
  }

  // ---------------------------------------------------------- by code point and letter

  /** The white space of Unicode, by code point. */
  lemma SpacesByCodePoint(c: char)
    ensures IsSpace(c) <==> c as int in [
      0x09, 0x0A, 0x0B, 0x0C, 0x0D, 0x1C, 0x1D, 0x1E, 0x1F, 0x20, 0x85, 0xA0, 0x1680,
      0x2000, 0x2001, 0x2002, 0x2003, 0x2004, 0x2005, 0x2006, 0x2007, 0x2008, 0x2009, 0x200A,
      0x2028, 0x2029, 0x202F, 0x205F, 0x3000]
  {
  }

  /** Stripping takes exactly the padding off. */
  lemma StripOfPadded(v: string, s: string, w: string)
    requires AllSpace(v) && AllSpace(w) && (s == [] || (!IsSpace(s[0]) && !IsSpace(s[|s| - 1])))
    ensures Strip(v + s + w) == s
  {
    hide IsSpace;
    TrimRightOfPadded(v + s, w);
    if s == [] {
      assert v + s == [] + v;
      TrimRightOfPadded([], v);
    } else {
      assert (v + s)[|v + s| - 1] == s[|s| - 1];
      assert TrimRight(v + s) == v + s;
      TrimLeftOfPadded(v, s);
    }
  }

  function LowerChar(c: char): char { if 'A' <= c <= 'Z' then (c as int + 32) as char else c }

  /** Lower case replaces each capital by the letter at its place in the small alphabet, and nothing else. */
  lemma LowerByLetter(s: string, i: nat)
    requires i < |s|
    ensures |Lower(s)| == |s|
    ensures if s[i] in "ABCDEFGHIJKLMNOPQRSTUVWXYZ"
      then Lower(s)[i] as int - 'a' as int == s[i] as int - 'A' as int
      else Lower(s)[i] == s[i]
  {
  }
}
