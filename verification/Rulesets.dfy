/**
 * Branch-protection rulesets: the normal form in which the declared and the
 * server-side rulesets are compared.
 */
module Rulesets {
  import opened Text
  import opened Ordering

  datatype Json =
    | Null
    | Bool(b: bool)
    | Num(n: int)
    | Str(s: string)
    | Arr(items: seq<Json>)
    | Obj(fields: map<string, Json>)

  /** Python's `str` and `int` on JSON values; `int` may raise.  Nothing is assumed about them. */
  datatype Python = Python(text: Json -> string, number: Json -> Option<int>)

  predicate Falsy(v: Json) {
    v == Null || v == Bool(false) || v == Num(0) || v == Str("") || v == Arr([]) || v == Obj(map[])
  }

  function Get(v: Json, field: string): Option<Json> {
    if v.Obj? && field in v.fields then Some(v.fields[field]) else None
  }

  /** `str(v.get(field, ""))`. */
  function TextField(py: Python, v: Json, field: string): string {
    match Get(v, field) case Some(x) => py.text(x) case None => ""
  }

  /** `int(v.get("actor_id", 0) or 0)`; None when `int` raises. */
  function ActorId(py: Python, v: Json): Option<int> {
    match Get(v, "actor_id") case Some(x) => if Falsy(x) then Some(0) else py.number(x) case None => Some(0)
  }

  const BYPASS_ACTORS := "bypass_actors"
  const RULES := "rules"

  predicate IsOrdered(field: string) { field == BYPASS_ACTORS || field == RULES }

  /** The key under which an element of an ordered field sorts. */
  function SortKey(py: Python, field: string): Json -> Key {
    (v: Json) =>
      if field == BYPASS_ACTORS then
        Key(TextField(py, v, "actor_type"), match ActorId(py, v) case Some(n) => n case None => 0)
      else Key(TextField(py, v, "type"), 0)
  }

  /** Computing that key raises nothing: the element is an object and its id converts. */
  predicate HasKey(py: Python, field: string, v: Json) {
    v.Obj? && (field == BYPASS_ACTORS ==> ActorId(py, v).Some?)
  }

  function OrderField(py: Python, field: string, v: Json): Json {
    if IsOrdered(field) && v.Arr? then Arr(Sort(SortKey(py, field), v.items)) else v
  }

  function Normalize(py: Python, v: Json): Json
    decreases v
  {
    match v
    case Arr(xs) => Arr(seq(|xs|, i requires 0 <= i < |xs| => Normalize(py, xs[i])))
    case Obj(m) =>
      Obj(map k | k in m && Normalize(py, m[k]) != Arr([]) :: OrderField(py, k, Normalize(py, m[k])))
    case _ => v
  }

  /** Normalising v raises nothing. */
  predicate Sortable(py: Python, v: Json)
    decreases v
  {
    match v
    case Arr(xs) => forall i | 0 <= i < |xs| :: Sortable(py, xs[i])
    case Obj(m) => forall k | k in m ::
      && Sortable(py, m[k])
      && (IsOrdered(k) && m[k].Arr? ==> forall i | 0 <= i < |m[k].items| :: HasKey(py, k, Normalize(py, m[k].items[i])))
    case _ => true
  }

  // -------------------------------------------------------------- idempotence

  predicate Normal(py: Python, v: Json) { Normalize(py, v) == v }

  lemma OrderKeepsNormal(py: Python, field: string, v: Json)
    requires Normal(py, v)
    ensures Normal(py, OrderField(py, field, v))
    ensures OrderField(py, field, OrderField(py, field, v)) == OrderField(py, field, v)
    ensures OrderField(py, field, v) == Arr([]) <==> v == Arr([])
  {
    if IsOrdered(field) && v.Arr? {
      var key := SortKey(py, field);
      SortIdempotent(key, v.items);
      SortSorted(key, v.items);
      var sorted := Sort(key, v.items);
      forall i | 0 <= i < |sorted| ensures Normalize(py, sorted[i]) == sorted[i] {
        assert sorted[i] in multiset(sorted);
        var j :| 0 <= j < |v.items| && v.items[j] == sorted[i];
        assert Normalize(py, v).items[j] == v.items[j];
      }
      assert Normalize(py, Arr(sorted)).items == sorted;
    }
  }

  /** Normalising twice changes nothing. */
  lemma {:induction false} NormalizeIdempotent(py: Python, v: Json)
    ensures Normalize(py, Normalize(py, v)) == Normalize(py, v)
    decreases v
  {
    var n := Normalize(py, v);
    match v
    case Arr(xs) =>
      forall i | 0 <= i < |xs| {
        NormalizeIdempotent(py, xs[i]);
      }
      assert Normalize(py, n).items == n.items;
    case Obj(m) =>
      hide OrderField;
      forall k | k in n.fields
        ensures Normalize(py, n.fields[k]) == n.fields[k] != Arr([])
        ensures OrderField(py, k, n.fields[k]) == n.fields[k]
      {
        NormalizeIdempotent(py, m[k]);
        OrderKeepsNormal(py, k, Normalize(py, m[k]));
      }
      assert Normalize(py, n).fields == n.fields;
    case _ =>
  }

  // ------------------------------------------------- what normalising identifies

  /** Only the empty list normalises to the empty list. */
  lemma NormalizesToEmpty(py: Python, v: Json)
    ensures Normalize(py, v) == Arr([]) <==> v == Arr([])
  {
  }

  /** The fields that survive: those that are not empty lists. */
  function Live(m: map<string, Json>): set<string> { set k | k in m && m[k] != Arr([]) }

  function NormalizeAll(py: Python, xs: seq<Json>): seq<Json> { Normalize(py, Arr(xs)).items }

  /** Two values of a field that normalise alike: ordered lists need only agree key by key. */
  ghost predicate SameField(py: Python, field: string, a: Json, b: Json) {
    if IsOrdered(field) && a.Arr? && b.Arr? then
      SameByKey(SortKey(py, field), NormalizeAll(py, a.items), NormalizeAll(py, b.items))
    else Normalize(py, a) == Normalize(py, b)
  }

  lemma OrderedFieldEqual(py: Python, field: string, a: Json, b: Json)
    ensures OrderField(py, field, Normalize(py, a)) == OrderField(py, field, Normalize(py, b))
        <==> SameField(py, field, a, b)
  {
    if IsOrdered(field) && a.Arr? && b.Arr? {
      SortEqual(SortKey(py, field), NormalizeAll(py, a.items), NormalizeAll(py, b.items));
    }
  }

  /** Two objects normalise alike exactly when they have the same live fields, alike one by one. */
  lemma ObjectsNormalizeAlike(py: Python, m: map<string, Json>, n: map<string, Json>)
    ensures Normalize(py, Obj(m)) == Normalize(py, Obj(n))
        <==> Live(m) == Live(n) && forall k | k in Live(m) :: SameField(py, k, m[k], n[k])
  {
    hide OrderField, SameField;
    var a, b := Normalize(py, Obj(m)).fields, Normalize(py, Obj(n)).fields;
    forall k ensures k in m ==> (k in Live(m) <==> Normalize(py, m[k]) != Arr([])) {
      if k in m { NormalizesToEmpty(py, m[k]); }
    }
    forall k ensures k in n ==> (k in Live(n) <==> Normalize(py, n[k]) != Arr([])) {
      if k in n { NormalizesToEmpty(py, n[k]); }
    }
    assert a.Keys == Live(m) && b.Keys == Live(n);
    forall k | k in Live(m) && k in Live(n)
      ensures a[k] == b[k] <==> SameField(py, k, m[k], n[k])
    {
      OrderedFieldEqual(py, k, m[k], n[k]);
    }
    if Live(m) == Live(n) && forall k | k in Live(m) :: SameField(py, k, m[k], n[k]) {
      assert a == b;
    }
    if a == b {
      assert forall k | k in Live(m) :: a[k] == b[k];
    }
  }

  /**
   * Two spellings of one value: the same shape, empty lists in objects aside, where an
   * ordered field may be listed in any order that keeps elements of one sort key in order.
   */
  ghost predicate Respelled(py: Python, a: Json, b: Json)
    decreases a
  {
    match a
    case Arr(xs) => b.Arr? && |xs| == |b.items| && forall i | 0 <= i < |xs| :: Respelled(py, xs[i], b.items[i])
    case Obj(m) => b.Obj? && Live(m) == Live(b.fields) && forall k | k in Live(m) ::
      if IsOrdered(k) && m[k].Arr? && b.fields[k].Arr? then Matched(py, k, m[k].items, b.fields[k].items)
      else Respelled(py, m[k], b.fields[k])
    case _ => a == b
  }

  /** Each element in turn is paired with the first one left on the other side with its sort key. */
  ghost predicate Matched(py: Python, field: string, xs: seq<Json>, ys: seq<Json>)
    decreases xs
  {
    if xs == [] then ys == []
    else exists j: nat | j < |ys| ::
      && FirstOfKey(SortKey(py, field), NormalizeAll(py, ys), j)
      && Respelled(py, xs[0], ys[j])
      && Matched(py, field, xs[1..], Without(ys, j))
  }

  lemma WithoutNormalized(py: Python, ys: seq<Json>, j: nat)
    requires j < |ys|
    ensures NormalizeAll(py, Without(ys, j)) == Without(NormalizeAll(py, ys), j)
  {
  }

  lemma TailNormalized(py: Python, xs: seq<Json>)
    requires xs != []
    ensures NormalizeAll(py, xs[1..]) == NormalizeAll(py, xs)[1..] && NormalizeAll(py, xs)[0] == Normalize(py, xs[0])
  {
  }

  lemma SameAsNothing(key: Json -> Key, ys: seq<Json>)
    ensures SameByKey(key, [], ys) <==> ys == []
  {
    KeyedHead(key, ys);
    if ys != [] {
      assert Keyed(key, key(ys[0]), []) == [];
    }
  }

  lemma {:induction false} MatchedIsSameByKey(py: Python, field: string, xs: seq<Json>, ys: seq<Json>)
    ensures Matched(py, field, xs, ys) <==>
      SameByKey(SortKey(py, field), NormalizeAll(py, xs), NormalizeAll(py, ys))
    decreases xs
  {
    var key, ns, ms := SortKey(py, field), NormalizeAll(py, xs), NormalizeAll(py, ys);
    hide SortKey, Normalize, NormalizeAll, FirstOfKey, Without;
    assert |ns| == |xs| && |ms| == |ys| by { NormalizedLength(py, xs); NormalizedLength(py, ys); }
    if xs == [] {
      SameAsNothing(key, ms);
      assert ns == [];
    } else {
      TailNormalized(py, xs);
      forall j: nat | j < |ys|
        ensures (FirstOfKey(key, ms, j) && Respelled(py, xs[0], ys[j]) && Matched(py, field, xs[1..], Without(ys, j)))
          <==> (FirstOfKey(key, ms, j) && ns[0] == ms[j] && SameByKey(key, ns, ms))
      {
        RespelledNormalizesAlike(py, xs[0], ys[j]);
        NormalizedAt(py, ys, j);
        MatchedIsSameByKey(py, field, xs[1..], Without(ys, j));
        WithoutNormalized(py, ys, j);
        if FirstOfKey(key, ms, j) && ns[0] == ms[j] {
          TakeOne(key, ns, ms, j);
        }
      }
      if SameByKey(key, ns, ms) {
        KeyedHead(key, ns);
        var j := FirstKeyed(key, key(ns[0]), ms);
        assert j < |ys| by { FirstIsThere(key, ms, j); }
        assert FirstOfKey(key, ms, j) && ns[0] == ms[j];
      }
    }
  }

  lemma FirstIsThere(key: Json -> Key, ys: seq<Json>, j: nat)
    requires FirstOfKey(key, ys, j)
    ensures j < |ys|
  {
  }

  lemma NormalizedLength(py: Python, xs: seq<Json>)
    ensures |NormalizeAll(py, xs)| == |xs|
  {
  }

  lemma NormalizedAt(py: Python, xs: seq<Json>, i: nat)
    requires i < |xs|
    ensures i < |NormalizeAll(py, xs)| && NormalizeAll(py, xs)[i] == Normalize(py, xs[i])
  {
  }

  /** Two values have one normal form exactly when each is a respelling of the other, at every depth. */
  lemma {:induction false} RespelledNormalizesAlike(py: Python, a: Json, b: Json)
    ensures Respelled(py, a, b) <==> Normalize(py, a) == Normalize(py, b)
    decreases a
  {
    match a
    case Arr(xs) =>
      if b.Arr? && |b.items| == |xs| {
        forall i | 0 <= i < |xs|
          ensures Respelled(py, xs[i], b.items[i]) <==> Normalize(py, xs[i]) == Normalize(py, b.items[i])
        {
          RespelledNormalizesAlike(py, xs[i], b.items[i]);
        }
        ListsNormalizeAlike(py, xs, b.items);
      } else {
        assert b.Arr? ==> |Normalize(py, a).items| != |Normalize(py, b).items|;
      }
    case Obj(m) =>
      if b.Obj? {
        var n := b.fields;
        ObjectsNormalizeAlike(py, m, n);
        forall k | k in Live(m) && k in Live(n)
          ensures SameField(py, k, m[k], n[k]) <==>
            if IsOrdered(k) && m[k].Arr? && n[k].Arr? then Matched(py, k, m[k].items, n[k].items)
            else Respelled(py, m[k], n[k])
        {
          if IsOrdered(k) && m[k].Arr? && n[k].Arr? {
            MatchedIsSameByKey(py, k, m[k].items, n[k].items);
          } else {
            RespelledNormalizesAlike(py, m[k], n[k]);
          }
        }
        hide Normalize, SameField;
      }
    case _ =>
  }

  lemma ListsNormalizeAlike(py: Python, xs: seq<Json>, ys: seq<Json>)
    requires |xs| == |ys|
    ensures Normalize(py, Arr(xs)) == Normalize(py, Arr(ys)) <==>
      forall i | 0 <= i < |xs| :: Normalize(py, xs[i]) == Normalize(py, ys[i])
  {
    var a, b := NormalizeAll(py, xs), NormalizeAll(py, ys);
    forall i | 0 <= i < |xs| ensures a[i] == Normalize(py, xs[i]) && b[i] == Normalize(py, ys[i]) { }
    if Normalize(py, Arr(xs)) == Normalize(py, Arr(ys)) {
      assert a == b;
    } else {
      assert a != b;
    }
  }

  /** The same value, its ordered lists reordered anywhere below, empty lists in objects aside. */
  ghost predicate Reordered(a: Json, b: Json)
    decreases a
  {
    match a
    case Arr(xs) => b.Arr? && |xs| == |b.items| && forall i | 0 <= i < |xs| :: Reordered(xs[i], b.items[i])
    case Obj(m) => b.Obj? && Live(m) == Live(b.fields) && forall k | k in Live(m) ::
      if IsOrdered(k) && m[k].Arr? then b.fields[k].Arr? && ReorderedList(m[k].items, b.fields[k].items)
      else Reordered(m[k], b.fields[k])
    case _ => a == b
  }

  /** Each element in turn is some element of the other list, reordered below, and none is left over. */
  ghost predicate ReorderedList(xs: seq<Json>, ys: seq<Json>)
    decreases xs
  {
    if xs == [] then ys == []
    else exists j: nat | j < |ys| :: Reordered(xs[0], ys[j]) && ReorderedList(xs[1..], Without(ys, j))
  }

  /** Anywhere in the value, elements of an ordered list that share a sort key normalise alike. */
  predicate Settled(py: Python, a: Json)
    decreases a
  {
    match a
    case Arr(xs) => forall i | 0 <= i < |xs| :: Settled(py, xs[i])
    case Obj(m) => forall k | k in Live(m) ::
      && Settled(py, m[k])
      && (IsOrdered(k) && m[k].Arr? ==> Untied(SortKey(py, k), NormalizeAll(py, m[k].items)))
    case _ => true
  }

  lemma {:induction false} ReorderedMultiset(py: Python, xs: seq<Json>, ys: seq<Json>)
    requires ReorderedList(xs, ys) && forall i | 0 <= i < |xs| :: Settled(py, xs[i])
    ensures multiset(NormalizeAll(py, xs)) == multiset(NormalizeAll(py, ys))
    decreases xs
  {
    hide Normalize, Settled, Reordered;
    if xs == [] {
      assert |NormalizeAll(py, xs)| == |NormalizeAll(py, ys)| == 0 by {
        NormalizedLength(py, xs);
        NormalizedLength(py, ys);
      }
    } else {
      var j: nat :| j < |ys| && Reordered(xs[0], ys[j]) && ReorderedList(xs[1..], Without(ys, j));
      SettledNormalizesAlike(py, xs[0], ys[j]);
      ReorderedMultiset(py, xs[1..], Without(ys, j));
      OneFromEach(py, xs, ys, j);
    }
  }

  lemma TakenFromEach(ns: seq<Json>, ms: seq<Json>, j: nat)
    requires ns != [] && j < |ms| && ns[0] == ms[j] && multiset(ns[1..]) == multiset(Without(ms, j))
    ensures multiset(ns) == multiset(ms)
  {
    ToFrontReorders(ms, j);
    hide Without;
    assert ns == [ns[0]] + ns[1..];
    assert multiset(ToFront(ms, j)) == multiset{ms[j]} + multiset(Without(ms, j));
  }

  lemma OneFromEach(py: Python, xs: seq<Json>, ys: seq<Json>, j: nat)
    requires xs != [] && j < |ys| && Normalize(py, xs[0]) == Normalize(py, ys[j])
    requires multiset(NormalizeAll(py, xs[1..])) == multiset(NormalizeAll(py, Without(ys, j)))
    ensures multiset(NormalizeAll(py, xs)) == multiset(NormalizeAll(py, ys))
  {
    var ns, ms := NormalizeAll(py, xs), NormalizeAll(py, ys);
    TailNormalized(py, xs);
    WithoutNormalized(py, ys, j);
    NormalizedAt(py, ys, j);
    hide Normalize, NormalizeAll;
    TakenFromEach(ns, ms, j);
  }

  /** In a settled value, reordering changes nothing. */
  lemma {:induction false} SettledNormalizesAlike(py: Python, a: Json, b: Json)
    requires Settled(py, a) && Reordered(a, b)
    ensures Normalize(py, a) == Normalize(py, b)
    decreases a
  {
    match a
    case Arr(xs) =>
      forall i | 0 <= i < |xs| ensures Normalize(py, xs[i]) == Normalize(py, b.items[i]) {
        SettledNormalizesAlike(py, xs[i], b.items[i]);
      }
      ListsNormalizeAlike(py, xs, b.items);
    case Obj(m) =>
      var n := b.fields;
      forall k | k in Live(m) ensures SameField(py, k, m[k], n[k]) {
        if IsOrdered(k) && m[k].Arr? {
          var key, xs, ys := SortKey(py, k), m[k].items, n[k].items;
          assert forall i | 0 <= i < |xs| :: Settled(py, xs[i]);
          ReorderedMultiset(py, xs, ys);
          SortOfReordered(key, NormalizeAll(py, xs), NormalizeAll(py, ys));
          SortEqual(key, NormalizeAll(py, xs), NormalizeAll(py, ys));
        } else {
          SettledNormalizesAlike(py, m[k], n[k]);
        }
      }
      ObjectsNormalizeAlike(py, m, n);
    case _ =>
  }

  lemma {:induction false} ReorderedSelf(a: Json)
    ensures Reordered(a, a)
    decreases a
  {
    match a
    case Arr(xs) =>
      forall i | 0 <= i < |xs| { ReorderedSelf(xs[i]); }
    case Obj(m) =>
      forall k | k in Live(m)
        ensures if IsOrdered(k) && m[k].Arr? then ReorderedList(m[k].items, m[k].items) else Reordered(m[k], m[k])
      {
        if IsOrdered(k) && m[k].Arr? { ReorderedSelfList(m[k].items); } else { ReorderedSelf(m[k]); }
      }
    case _ =>
  }

  lemma {:induction false} ReorderedSelfList(xs: seq<Json>)
    ensures ReorderedList(xs, xs)
    decreases xs
  {
    if xs != [] {
      ReorderedSelf(xs[0]);
      ReorderedSelfList(xs[1..]);
      assert Without(xs, 0) == xs[1..];
    }
  }

  lemma {:induction false} ReorderedToFront(xs: seq<Json>, i: nat)
    requires i < |xs|
    ensures ReorderedList(xs, ToFront(xs, i))
    decreases xs
  {
    ReorderedSelf(xs[0]);
    FrontParts(xs, i);
    hide Reordered, ToFront, Without;
    if i == 0 {
      ReorderedSelfList(xs[1..]);
      ReorderedStep(xs, ToFront(xs, i), 0);
    } else {
      ReorderedToFront(xs[1..], i - 1);
      ReorderedStep(xs, ToFront(xs, i), 1);
    }
  }

  lemma ReorderedStep(xs: seq<Json>, ys: seq<Json>, j: nat)
    requires xs != [] && j < |ys| && Reordered(xs[0], ys[j]) && ReorderedList(xs[1..], Without(ys, j))
    ensures ReorderedList(xs, ys)
  {
  }

  /** What is left of the moved list once the first element is taken from it. */
  lemma FrontParts(xs: seq<Json>, i: nat)
    requires i < |xs|
    ensures var ys := ToFront(xs, i);
      if i == 0 then ys != [] && ys[0] == xs[0] && Without(ys, 0) == xs[1..]
      else |ys| > 1 && ys[1] == xs[0] && Without(ys, 1) == ToFront(xs[1..], i - 1)
  {
  }

  lemma {:induction false} ReorderedAt(xs: seq<Json>, i: nat, y: Json)
    requires i < |xs| && Reordered(xs[i], y)
    ensures ReorderedList(xs, xs[i := y])
    decreases xs
  {
    hide Reordered;
    var ys := xs[i := y];
    assert Without(ys, 0) == ys[1..];
    if i == 0 {
      ReorderedSelfList(xs[1..]);
      assert ys[1..] == xs[1..];
    } else {
      ReorderedSelf(xs[0]);
      ReorderedAt(xs[1..], i - 1, y);
      assert ys[1..] == xs[1..][i - 1 := y];
    }
  }

  /** Reordering one live field reorders the object. */
  lemma ReorderedFieldOf(m: map<string, Json>, k: string, v: Json)
    requires k in Live(m) && v != Arr([])
    requires if IsOrdered(k) && m[k].Arr? then v.Arr? && ReorderedList(m[k].items, v.items) else Reordered(m[k], v)
    ensures Reordered(Obj(m), Obj(m[k := v]))
  {
    hide ReorderedList;
    var n := m[k := v];
    assert Live(m) == Live(n);
    forall f | f in Live(m) && f != k
      ensures if IsOrdered(f) && m[f].Arr? then ReorderedList(m[f].items, m[f].items) else Reordered(m[f], m[f])
    {
      if IsOrdered(f) && m[f].Arr? { ReorderedSelfList(m[f].items); } else { ReorderedSelf(m[f]); }
    }
  }

  /** An unsettled value has a reordering that normalises differently. */
  lemma {:induction false} UnsettledDiffers(py: Python, a: Json) returns (b: Json)
    requires !Settled(py, a)
    ensures Reordered(a, b) && Normalize(py, a) != Normalize(py, b)
    decreases a, 1
  {
    match a
    case Arr(xs) =>
      var i :| 0 <= i < |xs| && !Settled(py, xs[i]);
      var y := UnsettledDiffers(py, xs[i]);
      b := Arr(xs[i := y]);
      forall j | 0 <= j < |xs| ensures Reordered(xs[j], b.items[j]) {
        if j != i { ReorderedSelf(xs[j]); }
      }
      ListsNormalizeAlike(py, xs, b.items);
    case Obj(m) =>
      var k :| k in Live(m) && !(
        && Settled(py, m[k])
        && (IsOrdered(k) && m[k].Arr? ==> Untied(SortKey(py, k), NormalizeAll(py, m[k].items))));
      var v := UnsettledField(py, m, k);
      b := Obj(m[k := v]);
      ReorderedFieldOf(m, k, v);
      hide Normalize, Reordered, SameField;
      ObjectsNormalizeAlike(py, m, m[k := v]);
      assert m[k := v][k] == v && !SameField(py, k, m[k], v);
  }

  lemma {:induction false} UnsettledField(py: Python, m: map<string, Json>, k: string) returns (v: Json)
    requires k in Live(m)
    requires !Settled(py, m[k]) || (IsOrdered(k) && m[k].Arr? && !Untied(SortKey(py, k), NormalizeAll(py, m[k].items)))
    ensures v != Arr([]) && !SameField(py, k, m[k], v)
    ensures if IsOrdered(k) && m[k].Arr? then v.Arr? && ReorderedList(m[k].items, v.items) else Reordered(m[k], v)
    decreases Obj(m), 0
  {
    if IsOrdered(k) && m[k].Arr? {
      var xs := m[k].items;
      if Settled(py, m[k]) {
        var ys := UntieList(py, k, xs);
        v := Arr(ys);
      } else {
        var i :| 0 <= i < |xs| && !Settled(py, xs[i]);
        var y := UnsettledDiffers(py, xs[i]);
        v := Arr(xs[i := y]);
        ReorderedAt(xs, i, y);
        OneChanged(py, k, xs, i, y);
      }
    } else {
      v := UnsettledDiffers(py, m[k]);
    }
  }

  lemma UntieList(py: Python, field: string, xs: seq<Json>) returns (ys: seq<Json>)
    requires !Untied(SortKey(py, field), NormalizeAll(py, xs))
    ensures ys != [] && ReorderedList(xs, ys)
    ensures !SameByKey(SortKey(py, field), NormalizeAll(py, xs), NormalizeAll(py, ys))
  {
    var key, ns := SortKey(py, field), NormalizeAll(py, xs);
    NormalizedLength(py, xs);
    var i, j :| 0 <= i < j < |ns| && key(ns[i]) == key(ns[j]) && ns[i] != ns[j];
    var t := TieMatters(key, ns, i, j);
    ys := ToFront(xs, t);
    ReorderedToFront(xs, t);
    FrontNormalized(py, xs, t);
    SortEqual(key, ns, ToFront(ns, t));
  }

  lemma FrontNormalized(py: Python, xs: seq<Json>, t: nat)
    requires t < |xs|
    ensures |NormalizeAll(py, xs)| == |xs| && NormalizeAll(py, ToFront(xs, t)) == ToFront(NormalizeAll(py, xs), t)
  {
  }

  /** A list with one element normalised differently does not sort alike. */
  lemma OneChanged(py: Python, field: string, xs: seq<Json>, i: nat, y: Json)
    requires i < |xs| && Normalize(py, xs[i]) != Normalize(py, y)
    ensures !SameByKey(SortKey(py, field), NormalizeAll(py, xs), NormalizeAll(py, xs[i := y]))
  {
    var key, ns, ms := SortKey(py, field), NormalizeAll(py, xs), NormalizeAll(py, xs[i := y]);
    NormalizedLength(py, xs);
    NormalizedAt(py, xs, i);
    NormalizedAt(py, xs[i := y], i);
    assert ms == ns[i := Normalize(py, y)] by { UpdateNormalized(py, xs, i, y); }
    SortEqual(key, ns, ms);
    SortSorted(key, ns);
    SortSorted(key, ms);
    assert multiset(ms) == multiset(ns) - multiset{ns[i]} + multiset{ms[i]};
    assert multiset(ms)[ms[i]] != multiset(ns)[ms[i]];
  }

  lemma UpdateNormalized(py: Python, xs: seq<Json>, i: nat, y: Json)
    requires i < |xs|
    ensures |NormalizeAll(py, xs)| == |xs|
    ensures NormalizeAll(py, xs[i := y]) == NormalizeAll(py, xs)[i := Normalize(py, y)]
  {
  }

  /** Order never matters to a value, at any depth, exactly when elements that share a sort key normalise alike. */
  lemma OrderNeverMatters(py: Python, a: Json)
    ensures (forall b | Reordered(a, b) :: Normalize(py, b) == Normalize(py, a)) <==> Settled(py, a)
  {
    hide Reordered, Settled, Normalize;
    if Settled(py, a) {
      forall b | Reordered(a, b) ensures Normalize(py, b) == Normalize(py, a) {
        SettledNormalizesAlike(py, a, b);
      }
    } else {
      var b := UnsettledDiffers(py, a);
    }
  }

  /** Anywhere in the value, the sort keys of an ordered list are pairwise distinct. */
  predicate KeysDistinct(py: Python, a: Json)
    decreases a
  {
    match a
    case Arr(xs) => forall i | 0 <= i < |xs| :: KeysDistinct(py, xs[i])
    case Obj(m) => forall k | k in Live(m) ::
      && KeysDistinct(py, m[k])
      && (IsOrdered(k) && m[k].Arr? ==> DistinctKeys(SortKey(py, k), NormalizeAll(py, m[k].items)))
    case _ => true
  }

  lemma {:induction false} DistinctIsSettled(py: Python, a: Json)
    requires KeysDistinct(py, a)
    ensures Settled(py, a)
    decreases a
  {
    match a
    case Arr(xs) =>
      forall i | 0 <= i < |xs| { DistinctIsSettled(py, xs[i]); }
    case Obj(m) =>
      forall k | k in Live(m) { DistinctIsSettled(py, m[k]); }
    case _ =>
  }

  /** With distinct sort keys, reordering and empty lists, at any depth, do not change the normal form. */
  lemma ReorderedNormalizesAlike(py: Python, a: Json, b: Json)
    requires Reordered(a, b) && KeysDistinct(py, a)
    ensures Normalize(py, a) == Normalize(py, b)
  {
    DistinctIsSettled(py, a);
    SettledNormalizesAlike(py, a, b);
  }

  function TiedRule(p: int): Json { Obj(map["type" := Str("x"), "p" := Num(p)]) }

  lemma TiedRuleIsNormal(py: Python, p: int)
    ensures Normalize(py, TiedRule(p)) == TiedRule(p)
    ensures TiedRule(p).fields["p"] == Num(p)
    ensures SortKey(py, RULES)(TiedRule(p)) == Key(py.text(Str("x")), 0)
  {
    assert Normalize(py, TiedRule(p)).fields == TiedRule(p).fields;
  }

  /** Order within one sort key does matter: two rules of one type, swapped, are reported as drift. */
  lemma SwappedTiesDiffer(py: Python)
    ensures var (a, b) := (TiedRule(1), TiedRule(2));
      Normalize(py, Obj(map[RULES := Arr([a, b])])) != Normalize(py, Obj(map[RULES := Arr([b, a])]))
  {
    var a, b := TiedRule(1), TiedRule(2);
    TiedRuleIsNormal(py, 1);
    TiedRuleIsNormal(py, 2);
    hide TiedRule, SortKey;
    var key, xs, ys := SortKey(py, RULES), [a, b], [b, a];
    assert NormalizeAll(py, xs) == xs && NormalizeAll(py, ys) == ys;
    KeyedHead(key, xs);
    KeyedHead(key, ys);
    assert !SameByKey(key, xs, ys);
    var m, n := map[RULES := Arr(xs)], map[RULES := Arr(ys)];
    assert RULES in Live(m);
    hide Normalize;
    ObjectsNormalizeAlike(py, m, n);
  }

  // ------------------------------------------------- the normal form by its fields

  /** The text of a field of an object, empty when there is none. */
  function FieldText(py: Python, v: Json, field: string): string {
    if v.Obj? && field in v.fields then py.text(v.fields[field]) else ""
  }

  /** The actor's id is absent, or a value that Python takes for false. */
  predicate NoActorId(v: Json) {
    !v.Obj? || "actor_id" !in v.fields
    || v.fields["actor_id"] in [Null, Bool(false), Num(0), Str(""), Arr([]), Obj(map[])]
  }

  function ActorNumber(py: Python, v: Json): int {
    if NoActorId(v) then 0 else match py.number(v.fields["actor_id"]) case Some(n) => n case None => 0
  }

  /** By actor type, then by actor id. */
  ghost predicate ActorBefore(py: Python, v: Json, w: Json) {
    var (s, t) := (FieldText(py, v, "actor_type"), FieldText(py, w, "actor_type"));
    if s == t then ActorNumber(py, v) <= ActorNumber(py, w) else NotAfter(s, t)
  }

  /** By rule type. */
  ghost predicate RuleBefore(py: Python, v: Json, w: Json) {
    NotAfter(FieldText(py, v, "type"), FieldText(py, w, "type"))
  }

  /** The actors of this type and id, in order. */
  function ActorsLike(py: Python, kind: string, id: int, xs: seq<Json>): seq<Json> {
    if xs == [] then []
    else if FieldText(py, xs[0], "actor_type") == kind && ActorNumber(py, xs[0]) == id then
      [xs[0]] + ActorsLike(py, kind, id, xs[1..])
    else ActorsLike(py, kind, id, xs[1..])
  }

  /** The rules of this type, in order. */
  function RulesLike(py: Python, kind: string, xs: seq<Json>): seq<Json> {
    if xs == [] then []
    else if FieldText(py, xs[0], "type") == kind then [xs[0]] + RulesLike(py, kind, xs[1..])
    else RulesLike(py, kind, xs[1..])
  }

  /** The same actors by type and id, those with the same of both in the order they had. */
  ghost predicate ActorsInOrder(py: Python, xs: seq<Json>, ys: seq<Json>) {
    && (forall i, j | 0 <= i < j < |ys| :: ActorBefore(py, ys[i], ys[j]))
    && multiset(ys) == multiset(xs)
    && forall kind, id :: ActorsLike(py, kind, id, ys) == ActorsLike(py, kind, id, xs)
  }

  /** The same rules by type, those of one type in the order they had. */
  ghost predicate RulesInOrder(py: Python, xs: seq<Json>, ys: seq<Json>) {
    && (forall i, j | 0 <= i < j < |ys| :: RuleBefore(py, ys[i], ys[j]))
    && multiset(ys) == multiset(xs)
    && forall kind :: RulesLike(py, kind, ys) == RulesLike(py, kind, xs)
  }

  lemma ActorKey(py: Python, v: Json)
    ensures SortKey(py, "bypass_actors")(v) == Key(FieldText(py, v, "actor_type"), ActorNumber(py, v))
  {
  }

  lemma ActorLeq(py: Python, v: Json, w: Json)
    ensures Leq(SortKey(py, "bypass_actors")(v), SortKey(py, "bypass_actors")(w)) <==> ActorBefore(py, v, w)
  {
    ActorKey(py, v);
    ActorKey(py, w);
    hide SortKey, ActorNumber, FieldText, LowerAt;
    StrLeqByFirstDifference(FieldText(py, v, "actor_type"), FieldText(py, w, "actor_type"));
  }

  lemma RuleLeq(py: Python, v: Json, w: Json)
    ensures Leq(SortKey(py, "rules")(v), SortKey(py, "rules")(w)) <==> RuleBefore(py, v, w)
  {
    var s, t := FieldText(py, v, "type"), FieldText(py, w, "type");
    StrLeqByFirstDifference(s, t);
    if s == t {
      assert LowerAt(s, t, |s|);
    }
    hide LowerAt, StrLeq;
  }

  lemma {:induction false} KeyedActors(py: Python, k: Key, xs: seq<Json>)
    ensures Keyed(SortKey(py, "bypass_actors"), k, xs) == ActorsLike(py, k.text, k.number, xs)
  {
    if xs != [] {
      ActorKey(py, xs[0]);
      KeyedActors(py, k, xs[1..]);
      hide SortKey, ActorNumber, FieldText;
    }
  }

  lemma {:induction false} KeyedRules(py: Python, kind: string, xs: seq<Json>)
    ensures Keyed(SortKey(py, "rules"), Key(kind, 0), xs) == RulesLike(py, kind, xs)
  {
    if xs != [] {
      KeyedRules(py, kind, xs[1..]);
    }
  }

  lemma SortedActors(py: Python, xs: seq<Json>)
    ensures ActorsInOrder(py, xs, Sort(SortKey(py, "bypass_actors"), xs))
  {
    var key := SortKey(py, "bypass_actors");
    var ys := Sort(key, xs);
    SortSorted(key, xs);
    hide SortKey, Sort, Leq, ActorBefore, ActorsLike, Keyed;
    forall i, j | 0 <= i < j < |ys| ensures ActorBefore(py, ys[i], ys[j]) {
      ActorLeq(py, ys[i], ys[j]);
    }
    forall kind, id ensures ActorsLike(py, kind, id, ys) == ActorsLike(py, kind, id, xs) {
      SortStable(key, Key(kind, id), xs);
      KeyedActors(py, Key(kind, id), xs);
      KeyedActors(py, Key(kind, id), ys);
    }
  }

  lemma SortedRules(py: Python, xs: seq<Json>)
    ensures RulesInOrder(py, xs, Sort(SortKey(py, "rules"), xs))
  {
    var key := SortKey(py, "rules");
    var ys := Sort(key, xs);
    SortSorted(key, xs);
    hide SortKey, Sort, Leq, RuleBefore, RulesLike, Keyed;
    forall i, j | 0 <= i < j < |ys| ensures RuleBefore(py, ys[i], ys[j]) {
      RuleLeq(py, ys[i], ys[j]);
    }
    forall kind ensures RulesLike(py, kind, ys) == RulesLike(py, kind, xs) {
      SortStable(key, Key(kind, 0), xs);
      KeyedRules(py, kind, xs);
      KeyedRules(py, kind, ys);
    }
  }

  /** The bypass actors of a normal form are in order of type and id; its rules in order of type. */
  lemma ListsAreOrdered(py: Python, m: map<string, Json>)
    ensures var n := Normalize(py, Obj(m)).fields;
      && ("bypass_actors" in n && m["bypass_actors"].Arr? ==>
            && n["bypass_actors"].Arr?
            && ActorsInOrder(py, NormalizeAll(py, m["bypass_actors"].items), n["bypass_actors"].items))
      && ("rules" in n && m["rules"].Arr? ==>
            && n["rules"].Arr?
            && RulesInOrder(py, NormalizeAll(py, m["rules"].items), n["rules"].items))
  {
    hide ActorsInOrder, RulesInOrder;
    if "bypass_actors" in m && m["bypass_actors"].Arr? {
      SortedActors(py, NormalizeAll(py, m["bypass_actors"].items));
    }
    if "rules" in m && m["rules"].Arr? {
      SortedRules(py, NormalizeAll(py, m["rules"].items));
    }
    hide Sort, SortKey;
  }

  /** A normal form keeps exactly the fields that are not empty lists; other than those two, only normalised. */
  lemma FieldsAreKept(py: Python, m: map<string, Json>, k: string)
    ensures var n := Normalize(py, Obj(m)).fields;
      && (k in n <==> k in m && m[k] != Arr([]))
      && (k in n && ((k != "bypass_actors" && k != "rules") || !m[k].Arr?) ==> n[k] == Normalize(py, m[k]))
  {
    if k in m {
      NormalizesToEmpty(py, m[k]);
    }
  }

  /** Where normalising raises: at a bypass actor or a rule that is no object, or an actor id that does not convert. */
  lemma RaisesByFields(py: Python, m: map<string, Json>)
    ensures Sortable(py, Obj(m)) <==>
      && (forall k | k in m :: Sortable(py, m[k]))
      && ("rules" in m && m["rules"].Arr? ==>
            forall v | v in NormalizeAll(py, m["rules"].items) :: v.Obj?)
      && ("bypass_actors" in m && m["bypass_actors"].Arr? ==>
            forall v | v in NormalizeAll(py, m["bypass_actors"].items) ::
              v.Obj? && (NoActorId(v) || py.number(v.fields["actor_id"]).Some?))
  {
    forall v ensures HasKey(py, "rules", v) <==> v.Obj? { }
    forall v ensures HasKey(py, "bypass_actors", v) <==>
                     v.Obj? && (NoActorId(v) || py.number(v.fields["actor_id"]).Some?) { }
    hide HasKey, NoActorId;
    ElementsHaveKeys(py, m, "rules");
    ElementsHaveKeys(py, m, "bypass_actors");
    hide NormalizeAll, Normalize;
  }

  lemma ElementsHaveKeys(py: Python, m: map<string, Json>, k: string)
    ensures k in m && m[k].Arr? ==>
      ((forall i | 0 <= i < |m[k].items| :: HasKey(py, k, Normalize(py, m[k].items[i])))
       <==> forall v | v in NormalizeAll(py, m[k].items) :: HasKey(py, k, v))
  {
    hide HasKey;
    if k in m && m[k].Arr? {
      var xs, ys := m[k].items, NormalizeAll(py, m[k].items);
      NormalizedLength(py, xs);
      forall i | 0 <= i < |xs| ensures ys[i] == Normalize(py, xs[i]) && ys[i] in ys { }
    }
  }

  // ------------------------------------------------------------------ rulesets

  type Ruleset = map<string, Json>

  const SERVER_ONLY_KEYS := {
    "id", "node_id", "_links", "source", "source_type", "current_user_can_bypass", "created_at", "updated_at" }

  /** The form in which rulesets are compared; None when computing it raises. */
  function Comparable(py: Python, r: Ruleset): Option<Json> {
    var stripped := Obj(r - SERVER_ONLY_KEYS);
    if Sortable(py, stripped) then Some(Normalize(py, stripped)) else None
  }

  /** `r.get("name")`; a missing name is Python's None, like a JSON null. */
  function NameOf(r: Ruleset): Json { if "name" in r then r["name"] else Null }

  /** The keys a server adds. */
  predicate AddedByServer(k: string) {
    || k == "id" || k == "node_id" || k == "_links" || k == "source" || k == "source_type"
    || k == "current_user_can_bypass" || k == "created_at" || k == "updated_at"
  }

  /** What a comparison looks at: every field but those the server adds and empty lists. */
  lemma ComparableByFields(py: Python, r: Ruleset, k: string)
    requires Comparable(py, r).Some?
    ensures Comparable(py, r).value.Obj?
    ensures var n := Comparable(py, r).value.fields;
      && (k in n <==> k in r && r[k] != Arr([]) && !AddedByServer(k))
      && (k in n && ((k != "bypass_actors" && k != "rules") || !r[k].Arr?) ==> n[k] == Normalize(py, r[k]))
  {
    FieldsAreKept(py, r - SERVER_ONLY_KEYS, k);
    hide Sortable;
  }

  /** A comparison never looks at, nor raises for, a field the server adds. */
  lemma ServerFieldsNeverDrift(py: Python, r: Ruleset, k: string, v: Json)
    requires AddedByServer(k)
    ensures Comparable(py, r[k := v]) == Comparable(py, r)
  {
    assert r[k := v] - SERVER_ONLY_KEYS == r - SERVER_ONLY_KEYS;
  }
}
