/** Python's `sorted`: a stable sort by a totally ordered key. */
module Ordering {

  /** Strings compare by code point. */
  predicate StrLeq(s: string, t: string) {
    s == [] || (t != [] && (s[0] < t[0] || (s[0] == t[0] && StrLeq(s[1..], t[1..]))))
  }

  /** A sort key: a text, then a number, compared as a Python tuple. */
  datatype Key = Key(text: string, number: int)

  predicate Leq(a: Key, b: Key) {
    if a.text == b.text then a.number <= b.number else StrLeq(a.text, b.text)
  }

  lemma {:induction false} StrTotal(s: string, t: string)
    ensures StrLeq(s, t) || StrLeq(t, s)
    ensures StrLeq(s, t) && StrLeq(t, s) ==> s == t
  {
    if s != [] && t != [] {
      StrTotal(s[1..], t[1..]);
      assert s == [s[0]] + s[1..] && t == [t[0]] + t[1..];
    }
  }

  lemma {:induction false} StrTransitive(s: string, t: string, u: string)
    requires StrLeq(s, t) && StrLeq(t, u)
    ensures StrLeq(s, u)
  {
    if s != [] {
      if s[0] == t[0] == u[0] {
        StrTransitive(s[1..], t[1..], u[1..]);
      }
    }
  }

  /** The texts agree up to place n, where the first one ends or has the lower character. */
  predicate LowerAt(s: string, t: string, n: nat) {
    n <= |s| && n <= |t| && s[..n] == t[..n] && (n == |s| || (n < |t| && s[n] < t[n]))
  }

  /** The first text is a prefix of the other, or lower where they first differ. */
  ghost predicate NotAfter(s: string, t: string) { exists n: nat :: LowerAt(s, t, n) }

  lemma {:induction false} StrLeqByFirstDifference(s: string, t: string)
    ensures StrLeq(s, t) <==> NotAfter(s, t)
  {
    if s == [] {
      assert LowerAt(s, t, 0);
    } else if t != [] {
      var u, v := s[1..], t[1..];
      StrLeqByFirstDifference(u, v);
      assert s == [s[0]] + u && t == [t[0]] + v;
      if s[0] < t[0] {
        assert LowerAt(s, t, 0);
      }
      forall n: nat | LowerAt(u, v, n) && s[0] == t[0] ensures LowerAt(s, t, n + 1) {
        assert s[..n + 1] == [s[0]] + u[..n] && t[..n + 1] == [t[0]] + v[..n];
      }
      forall n: nat | LowerAt(s, t, n) && n > 0 ensures s[0] == t[0] && LowerAt(u, v, n - 1) {
        assert s[0] == s[..n][0] == t[..n][0] == t[0];
        assert u[..n - 1] == s[..n][1..] && v[..n - 1] == t[..n][1..];
      }
    }
  }

  lemma LeqTotal(a: Key, b: Key)
    ensures Leq(a, b) || Leq(b, a)
    ensures Leq(a, b) && Leq(b, a) ==> a == b
  {
    StrTotal(a.text, b.text);
  }

  lemma LeqTransitive(a: Key, b: Key, c: Key)
    requires Leq(a, b) && Leq(b, c)
    ensures Leq(a, c)
  {
    StrTotal(a.text, b.text);
    StrTotal(b.text, c.text);
    if StrLeq(a.text, b.text) && StrLeq(b.text, c.text) {
      StrTransitive(a.text, b.text, c.text);
    }
  }

  function Insert<T>(key: T -> Key, x: T, ys: seq<T>): seq<T>
    decreases ys
  {
    if ys == [] || Leq(key(x), key(ys[0])) then [x] + ys else [ys[0]] + Insert(key, x, ys[1..])
  }

  function Sort<T>(key: T -> Key, xs: seq<T>): seq<T> {
    if xs == [] then [] else Insert(key, xs[0], Sort(key, xs[1..]))
  }

  predicate Sorted<T>(key: T -> Key, xs: seq<T>) {
    forall i, j | 0 <= i < j < |xs| :: Leq(key(xs[i]), key(xs[j]))
  }

  /** The elements with a given key, in order. */
  function Keyed<T>(key: T -> Key, k: Key, xs: seq<T>): seq<T>
    decreases xs
  {
    if xs == [] then []
    else if key(xs[0]) == k then [xs[0]] + Keyed(key, k, xs[1..])
    else Keyed(key, k, xs[1..])
  }

  lemma {:induction false} InsertAdds<T>(key: T -> Key, x: T, ys: seq<T>)
    ensures multiset(Insert(key, x, ys)) == multiset(ys) + multiset{x}
    decreases ys
  {
    hide Leq;
    if ys != [] {
      InsertAdds(key, x, ys[1..]);
      assert ys == [ys[0]] + ys[1..];
    }
  }

  lemma {:induction false} InsertSorted<T>(key: T -> Key, x: T, ys: seq<T>)
    requires Sorted(key, ys)
    ensures Sorted(key, Insert(key, x, ys))
    decreases ys
  {
    hide StrLeq, Leq;
    InsertAdds(key, x, ys);
    if ys == [] || Leq(key(x), key(ys[0])) {
      assert Sorted(key, [x] + ys) by {
        forall j | 0 <= j < |ys| ensures Leq(key(x), key(ys[j])) {
          if j > 0 {
            LeqTransitive(key(x), key(ys[0]), key(ys[j]));
          }
        }
      }
    } else {
      var rest := Insert(key, x, ys[1..]);
      InsertSorted(key, x, ys[1..]);
      InsertAdds(key, x, ys[1..]);
      LeqTotal(key(x), key(ys[0]));
      assert ys == [ys[0]] + ys[1..];
      forall z | z in rest ensures Leq(key(ys[0]), key(z)) {
        assert z in multiset(rest);
        assert z in multiset(ys[1..]) || z == x;
      }
    }
  }

  lemma {:induction false} SortSorted<T>(key: T -> Key, xs: seq<T>)
    ensures Sorted(key, Sort(key, xs))
    ensures multiset(Sort(key, xs)) == multiset(xs)
    ensures |Sort(key, xs)| == |xs|
  {
    if xs != [] {
      SortSorted(key, xs[1..]);
      InsertSorted(key, xs[0], Sort(key, xs[1..]));
      InsertAdds(key, xs[0], Sort(key, xs[1..]));
      assert xs == [xs[0]] + xs[1..];
      assert |multiset(Sort(key, xs))| == |multiset(xs)|;
    }
  }

  lemma {:induction false} InsertStable<T>(key: T -> Key, k: Key, x: T, ys: seq<T>)
    requires Sorted(key, ys)
    ensures Keyed(key, k, Insert(key, x, ys)) == Keyed(key, k, [x] + ys)
    decreases ys
  {
    assert ([x] + ys)[1..] == ys;
    if ys != [] && !Leq(key(x), key(ys[0])) {
      var rest := Insert(key, x, ys[1..]);
      InsertStable(key, k, x, ys[1..]);
      assert ([x] + ys[1..])[1..] == ys[1..];
      assert ([ys[0]] + rest)[1..] == rest;
      LeqTotal(key(x), key(ys[0]));
    }
  }

  /** The sort is stable: elements with equal keys keep their order. */
  lemma {:induction false} SortStable<T>(key: T -> Key, k: Key, xs: seq<T>)
    ensures Keyed(key, k, Sort(key, xs)) == Keyed(key, k, xs)
  {
    if xs != [] {
      var rest := Sort(key, xs[1..]);
      SortStable(key, k, xs[1..]);
      SortSorted(key, xs[1..]);
      InsertStable(key, k, xs[0], rest);
      assert ([xs[0]] + rest)[1..] == rest;
    }
  }

  lemma {:induction false} KeyedMembers<T>(key: T -> Key, k: Key, xs: seq<T>)
    ensures forall x :: x in Keyed(key, k, xs) <==> x in xs && key(x) == k
  {
    if xs != [] {
      KeyedMembers(key, k, xs[1..]);
      assert xs == [xs[0]] + xs[1..];
    }
  }

  lemma {:induction false} KeyedNone<T>(key: T -> Key, k: Key, xs: seq<T>)
    requires forall x | x in xs :: key(x) != k
    ensures Keyed(key, k, xs) == []
  {
    if xs != [] {
      assert xs[0] in xs;
      KeyedNone(key, k, xs[1..]);
    }
  }

  lemma KeyedHead<T>(key: T -> Key, xs: seq<T>)
    ensures xs != [] ==> Keyed(key, key(xs[0]), xs) != [] && Keyed(key, key(xs[0]), xs)[0] == xs[0]
  {
  }

  /** The two sequences agree, key by key, on their elements and the order of these. */
  ghost predicate SameByKey<T>(key: T -> Key, xs: seq<T>, ys: seq<T>) {
    forall k :: Keyed(key, k, xs) == Keyed(key, k, ys)
  }

  /** A sorted sequence is determined by its elements of each key. */
  lemma {:induction false} SortedUnique<T>(key: T -> Key, xs: seq<T>, ys: seq<T>)
    requires Sorted(key, xs) && Sorted(key, ys)
    requires SameByKey(key, xs, ys)
    ensures xs == ys
    decreases |xs|
  {
    if xs == [] {
      KeyedHead(key, ys);
    } else {
      KeyedHead(key, xs);
      var kx := key(xs[0]);
      KeyedMembers(key, kx, ys);
      assert xs[0] in Keyed(key, kx, xs);
      var ky := key(ys[0]);
      KeyedMembers(key, ky, xs);
      assert ys[0] in Keyed(key, ky, ys);
      assert Leq(kx, ky) && Leq(ky, kx) by {
        LeqTotal(kx, kx);
        var i :| 0 <= i < |xs| && xs[i] == ys[0];
        var j :| 0 <= j < |ys| && ys[j] == xs[0];
      }
      LeqTotal(kx, ky);
      assert Keyed(key, kx, xs)[0] == xs[0] && Keyed(key, kx, ys)[0] == ys[0];
      forall k ensures Keyed(key, k, xs[1..]) == Keyed(key, k, ys[1..]) {
        assert Keyed(key, k, xs) == Keyed(key, k, ys);
        if k == kx {
          assert Keyed(key, k, xs[1..]) == Keyed(key, k, xs)[1..];
          assert Keyed(key, k, ys[1..]) == Keyed(key, k, ys)[1..];
        }
      }
      SortedUnique(key, xs[1..], ys[1..]);
      assert xs == [xs[0]] + xs[1..] && ys == [ys[0]] + ys[1..];
    }
  }

  lemma SortSameByKey<T>(key: T -> Key, xs: seq<T>)
    ensures SameByKey(key, Sort(key, xs), xs)
  {
    forall k ensures Keyed(key, k, Sort(key, xs)) == Keyed(key, k, xs) {
      SortStable(key, k, xs);
    }
  }

  /** Two sequences sort alike exactly when they agree, key by key, on elements and their order. */
  lemma SortEqual<T>(key: T -> Key, xs: seq<T>, ys: seq<T>)
    ensures Sort(key, xs) == Sort(key, ys) <==> SameByKey(key, xs, ys)
  {
    SortSameByKey(key, xs);
    SortSameByKey(key, ys);
    if Sort(key, xs) == Sort(key, ys) {
      forall k ensures Keyed(key, k, xs) == Keyed(key, k, ys) {
        assert Keyed(key, k, Sort(key, xs)) == Keyed(key, k, Sort(key, ys));
      }
    }
    if SameByKey(key, xs, ys) {
      SortSorted(key, xs);
      SortSorted(key, ys);
      forall k ensures Keyed(key, k, Sort(key, xs)) == Keyed(key, k, Sort(key, ys)) {
        assert Keyed(key, k, xs) == Keyed(key, k, ys);
      }
      SortedUnique(key, Sort(key, xs), Sort(key, ys));
    }
  }

  lemma SortIdempotent<T>(key: T -> Key, xs: seq<T>)
    ensures Sort(key, Sort(key, xs)) == Sort(key, xs)
  {
    SortSameByKey(key, xs);
    SortEqual(key, Sort(key, xs), xs);
  }

  predicate DistinctKeys<T>(key: T -> Key, xs: seq<T>) {
    forall i, j | 0 <= i < j < |xs| :: key(xs[i]) != key(xs[j])
  }

  /** Elements that share a key are equal. */
  predicate Untied<T(==)>(key: T -> Key, xs: seq<T>) {
    forall i, j | 0 <= i < j < |xs| && key(xs[i]) == key(xs[j]) :: xs[i] == xs[j]
  }

  lemma {:induction false} KeyedOfUntied<T>(key: T -> Key, xs: seq<T>, x: T)
    requires forall y | y in xs && key(y) == key(x) :: y == x
    ensures Keyed(key, key(x), xs) == seq(multiset(xs)[x], _ => x)
  {
    if xs != [] {
      assert xs == [xs[0]] + xs[1..];
      assert forall y | y in xs[1..] :: y in xs;
      KeyedOfUntied(key, xs[1..], x);
    }
  }

  lemma UntiedIsOne<T>(key: T -> Key, xs: seq<T>, x: T)
    requires Untied(key, xs) && x in xs
    ensures forall y | y in xs && key(y) == key(x) :: y == x
  {
    forall y | y in xs && key(y) == key(x) ensures y == x {
      var i :| 0 <= i < |xs| && xs[i] == x;
      var j :| 0 <= j < |xs| && xs[j] == y;
    }
  }

  /** Reordering a list without ties does not change its sort. */
  lemma SortOfReordered<T>(key: T -> Key, xs: seq<T>, ys: seq<T>)
    requires Untied(key, xs) && multiset(xs) == multiset(ys)
    ensures Sort(key, xs) == Sort(key, ys)
  {
    assert forall x :: x in xs <==> x in multiset(xs);
    assert forall x :: x in ys <==> x in multiset(ys);
    forall k ensures Keyed(key, k, xs) == Keyed(key, k, ys) {
      if x :| x in xs && key(x) == k {
        UntiedIsOne(key, xs, x);
        KeyedOfUntied(key, xs, x);
        KeyedOfUntied(key, ys, x);
      } else {
        KeyedNone(key, k, xs);
        KeyedNone(key, k, ys);
      }
    }
    SortEqual(key, xs, ys);
  }

  // ------------------------------------------------------ matching one by one

  /** No element before j has j's key. */
  predicate FirstOfKey<T>(key: T -> Key, ys: seq<T>, j: nat) {
    j < |ys| && forall i | 0 <= i < j :: key(ys[i]) != key(ys[j])
  }

  function Without<T>(ys: seq<T>, j: nat): seq<T>
    requires j < |ys|
  {
    ys[..j] + ys[j + 1..]
  }

  lemma {:induction false} KeyedConcat<T>(key: T -> Key, k: Key, xs: seq<T>, ys: seq<T>)
    ensures Keyed(key, k, xs + ys) == Keyed(key, k, xs) + Keyed(key, k, ys)
  {
    if xs == [] {
      assert xs + ys == ys;
    } else {
      assert (xs + ys)[1..] == xs[1..] + ys;
      KeyedConcat(key, k, xs[1..], ys);
    }
  }

  lemma KeyedWithout<T>(key: T -> Key, k: Key, ys: seq<T>, j: nat)
    requires FirstOfKey(key, ys, j)
    ensures Keyed(key, k, ys) == (if key(ys[j]) == k then [ys[j]] else []) + Keyed(key, k, Without(ys, j))
  {
    var before, rest := ys[..j], ys[j + 1..];
    assert ys == before + ([ys[j]] + rest);
    KeyedConcat(key, k, before, [ys[j]] + rest);
    KeyedConcat(key, k, before, rest);
    assert ([ys[j]] + rest)[1..] == rest;
    if key(ys[j]) == k {
      KeyedNone(key, k, before);
    }
  }

  /** Taking an element from the front of one list and its first like from the other. */
  lemma TakeOne<T>(key: T -> Key, xs: seq<T>, ys: seq<T>, j: nat)
    requires xs != [] && FirstOfKey(key, ys, j) && ys[j] == xs[0]
    ensures SameByKey(key, xs, ys) <==> SameByKey(key, xs[1..], Without(ys, j))
  {
    forall k ensures Keyed(key, k, xs) == Keyed(key, k, ys) <==>
                     Keyed(key, k, xs[1..]) == Keyed(key, k, Without(ys, j)) {
      KeyedWithout(key, k, ys, j);
      var front := if key(xs[0]) == k then [xs[0]] else [];
      var a, b := Keyed(key, k, xs[1..]), Keyed(key, k, Without(ys, j));
      assert Keyed(key, k, xs) == front + a;
      assert (front + a)[|front|..] == a && (front + b)[|front|..] == b;
    }
    hide Keyed, Without;
  }

  lemma {:induction false} FirstKeyed<T>(key: T -> Key, k: Key, ys: seq<T>) returns (j: nat)
    requires Keyed(key, k, ys) != []
    ensures FirstOfKey(key, ys, j) && ys[j] == Keyed(key, k, ys)[0] && key(ys[j]) == k
  {
    if key(ys[0]) == k {
      j := 0;
    } else {
      j := FirstKeyed(key, k, ys[1..]);
      j := j + 1;
    }
  }

  // ------------------------------------------------------ when order matters

  function ToFront<T>(xs: seq<T>, i: nat): seq<T>
    requires i < |xs|
  {
    [xs[i]] + Without(xs, i)
  }

  lemma ToFrontReorders<T>(xs: seq<T>, i: nat)
    requires i < |xs|
    ensures multiset(ToFront(xs, i)) == multiset(xs)
  {
    assert xs == xs[..i] + ([xs[i]] + xs[i + 1..]);
  }

  /** Of two different elements with one key, moving one or the other to the front changes the sort. */
  lemma TieMatters<T>(key: T -> Key, xs: seq<T>, i: nat, j: nat) returns (t: nat)
    requires i < j < |xs| && key(xs[i]) == key(xs[j]) && xs[i] != xs[j]
    ensures t < |xs| && Sort(key, ToFront(xs, t)) != Sort(key, xs)
  {
    KeyedHead(key, ToFront(xs, i));
    KeyedHead(key, ToFront(xs, j));
    SortEqual(key, ToFront(xs, i), ToFront(xs, j));
    t := if Sort(key, ToFront(xs, i)) != Sort(key, xs) then i else j;
  }

  /** Every reordering of a list sorts alike exactly when elements that share a key are equal. */
  lemma SortIgnoresOrder<T(!new)>(key: T -> Key, xs: seq<T>)
    ensures (forall ys | multiset(ys) == multiset(xs) :: Sort(key, ys) == Sort(key, xs)) <==> Untied(key, xs)
  {
    if Untied(key, xs) {
      forall ys | multiset(ys) == multiset(xs) ensures Sort(key, ys) == Sort(key, xs) {
        SortOfReordered(key, xs, ys);
      }
    } else {
      var i, j :| 0 <= i < j < |xs| && key(xs[i]) == key(xs[j]) && xs[i] != xs[j];
      var t := TieMatters(key, xs, i, j);
      ToFrontReorders(xs, t);
    }
  }
}
