/**
 * Applying declared rulesets to a repository: the reconcile loop over server
 * state, previewed or for real.
 */
module Reconciler {
  import opened Text
  import opened Rulesets

  /** The server's rulesets in listing order, and how many writes it has taken. */
  datatype Store = Store(ids: seq<int>, rulesets: map<int, Ruleset>, writes: nat)

  /** How the server behaves: what it stores for the n-th write, and which id it mints. */
  datatype Hub = Hub(py: Python, echo: (nat, Ruleset) -> Ruleset, mint: set<int> -> int)

  /**
   * It may rewrite what it is sent, but keeps its comparable form; ids are fresh.  That
   * it keeps the name is assumed only where the form does not show it: for a ruleset
   * that cannot be compared, or whose name is no text.
   */
  ghost predicate Faithful(hub: Hub) {
    && (forall n, r :: Comparable(hub.py, hub.echo(n, r)) == Comparable(hub.py, r))
    && (forall n, r | Comparable(hub.py, r).None? || !NameOf(r).Str? :: NameOf(hub.echo(n, r)) == NameOf(r))
    && (forall ids :: hub.mint(ids) !in ids)
  }

  /** A comparable form shows a name that is a text. */
  lemma ComparableShowsName(py: Python, r: Ruleset, s: Ruleset)
    requires Comparable(py, r).Some? && Comparable(py, r) == Comparable(py, s) && NameOf(r).Str?
    ensures NameOf(s) == NameOf(r)
  {
    var a, b := r - SERVER_ONLY_KEYS, s - SERVER_ONLY_KEYS;
    ObjectsNormalizeAlike(py, a, b);
    hide SameField;
    assert "name" in a && a["name"] == r["name"] && "name" in Live(a);
    assert "name" in Live(b) && SameField(py, "name", a["name"], b["name"]);
    SameText(py, "name", a["name"], b["name"]);
  }

  lemma SameText(py: Python, field: string, v: Json, w: Json)
    requires SameField(py, field, v, w) && v.Str?
    ensures v == w
  {
  }

  /** So the server keeps every name. */
  lemma NamesAreKept(hub: Hub, n: nat, r: Ruleset)
    requires Faithful(hub)
    ensures NameOf(hub.echo(n, r)) == NameOf(r)
  {
    hide Comparable, NameOf;
    if Comparable(hub.py, r).Some? && NameOf(r).Str? {
      ComparableShowsName(hub.py, r, hub.echo(n, r));
    }
  }

  ghost predicate Consistent(store: Store) {
    forall id :: id in store.ids <==> id in store.rulesets
  }

  /** Names to ids; of two rulesets with one name the one listed last counts. */
  function Index(rulesets: map<int, Ruleset>, ids: seq<int>): map<Json, int>
    requires forall id | id in ids :: id in rulesets
  {
    if ids == [] then map[]
    else
      var last := ids[|ids| - 1];
      Index(rulesets, ids[..|ids| - 1])[NameOf(rulesets[last]) := last]
  }

  function Existing(store: Store): map<Json, int>
    requires Consistent(store)
  {
    Index(store.rulesets, store.ids)
  }

  function Create(hub: Hub, store: Store, desired: Ruleset): Store {
    var id := hub.mint(store.rulesets.Keys);
    Store(store.ids + [id], store.rulesets[id := hub.echo(store.writes, desired)], store.writes + 1)
  }

  function Update(hub: Hub, store: Store, id: int, desired: Ruleset): Store {
    Store(store.ids, store.rulesets[id := hub.echo(store.writes, desired)], store.writes + 1)
  }

  /** Whether the two differ; None when comparing raises. */
  function Drifts(py: Python, current: Ruleset, desired: Ruleset): Option<bool> {
    match (Comparable(py, current), Comparable(py, desired))
    case (Some(a), Some(b)) => Some(a != b)
    case _ => None
  }

  datatype Outcome = Raised(store: Store) | Done(store: Store, changed: nat)

  /** One declared ruleset: what happens, and whether anything changed or would. */
  function One(hub: Hub, dryRun: bool, existing: map<Json, int>, store: Store, desired: Ruleset): Outcome {
    var name := NameOf(desired);
    if name !in existing then
      Done(if dryRun then store else Create(hub, store, desired), 1)
    else if existing[name] !in store.rulesets then Raised(store)
    else
      match Drifts(hub.py, store.rulesets[existing[name]], desired)
      case None => Raised(store)
      case Some(false) => Done(store, 0)
      case Some(true) => Done(if dryRun then store else Update(hub, store, existing[name], desired), 1)
  }

  function Reconcile(hub: Hub, dryRun: bool, existing: map<Json, int>, store: Store, declared: seq<Ruleset>): Outcome
    decreases declared
  {
    if declared == [] then Done(store, 0)
    else
      match One(hub, dryRun, existing, store, declared[0])
      case Raised(s) => Raised(s)
      case Done(s, n) =>
        match Reconcile(hub, dryRun, existing, s, declared[1..])
        case Raised(s') => Raised(s')
        case Done(s', m) => Done(s', n + m)
  }

  function RunOutcome(hub: Hub, dryRun: bool, store: Store, declared: seq<Ruleset>): Outcome
    requires Consistent(store)
  {
    Reconcile(hub, dryRun, Existing(store), store, declared)
  }

  /** What loading the configuration guarantees. */
  predicate DistinctNames(declared: seq<Ruleset>) {
    forall i, j | 0 <= i < j < |declared| :: NameOf(declared[i]) != NameOf(declared[j])
  }

  // ------------------------------------------------------------------ the index

  /** The index names real rulesets, and names every one of them. */
  lemma {:induction false} IndexNames(rulesets: map<int, Ruleset>, ids: seq<int>)
    requires forall id | id in ids :: id in rulesets
    ensures forall n | n in Index(rulesets, ids) ::
      Index(rulesets, ids)[n] in ids && NameOf(rulesets[Index(rulesets, ids)[n]]) == n
    ensures forall id | id in ids :: NameOf(rulesets[id]) in Index(rulesets, ids)
  {
    if ids != [] {
      IndexNames(rulesets, ids[..|ids| - 1]);
      assert ids == ids[..|ids| - 1] + [ids[|ids| - 1]];
    }
  }

  /** The index depends on the names only. */
  lemma {:induction false} IndexOfSameNames(a: map<int, Ruleset>, b: map<int, Ruleset>, ids: seq<int>)
    requires forall id | id in ids :: id in a && id in b && NameOf(a[id]) == NameOf(b[id])
    ensures Index(a, ids) == Index(b, ids)
  {
    if ids != [] {
      IndexOfSameNames(a, b, ids[..|ids| - 1]);
    }
  }

  lemma UpdateKeepsIndex(hub: Hub, store: Store, id: int, desired: Ruleset)
    requires Faithful(hub) && Consistent(store) && id in store.rulesets
    requires NameOf(store.rulesets[id]) == NameOf(desired)
    ensures Consistent(Update(hub, store, id, desired))
    ensures Existing(Update(hub, store, id, desired)) == Existing(store)
  {
    NamesAreKept(hub, store.writes, desired);
    hide Comparable, NameOf;
    var after := Update(hub, store, id, desired);
    IndexOfSameNames(store.rulesets, after.rulesets, store.ids);
  }

  lemma CreateExtendsIndex(hub: Hub, store: Store, desired: Ruleset)
    requires Faithful(hub) && Consistent(store)
    ensures Consistent(Create(hub, store, desired))
    ensures Existing(Create(hub, store, desired)) ==
      Existing(store)[NameOf(desired) := hub.mint(store.rulesets.Keys)]
  {
    NamesAreKept(hub, store.writes, desired);
    hide Comparable, NameOf;
    var after := Create(hub, store, desired);
    var id := hub.mint(store.rulesets.Keys);
    assert after.ids[..|after.ids| - 1] == store.ids;
    assert id !in store.rulesets.Keys;
    IndexOfSameNames(store.rulesets, after.rulesets, store.ids);
  }

  // ---------------------------------------------------------------- convergence

  predicate Includes(small: map<Json, int>, large: map<Json, int>) {
    forall n | n in small :: n in large && large[n] == small[n]
  }

  /** The ids that the remaining declarations may update. */
  ghost predicate Targets(existing: map<Json, int>, declared: seq<Ruleset>, id: int) {
    exists d | d in declared :: NameOf(d) in existing && existing[NameOf(d)] == id
  }

  /** What a loop over the remaining declarations starts from. */
  ghost predicate Loop(existing: map<Json, int>, store: Store, declared: seq<Ruleset>) {
    && Consistent(store) && DistinctNames(declared)
    && Includes(existing, Existing(store))
    && forall d | d in declared :: NameOf(d) in Existing(store) ==> NameOf(d) in existing
  }

  ghost predicate Matched(py: Python, store: Store, d: Ruleset)
    requires Consistent(store)
  {
    var index := Existing(store);
    && NameOf(d) in index && index[NameOf(d)] in store.rulesets
    && Comparable(py, store.rulesets[index[NameOf(d)]]) == Comparable(py, d)
  }

  /** What applying leaves behind: everything declared matches, nothing else is touched. */
  ghost predicate Applied(py: Python, existing: map<Json, int>, store: Store, after: Store, declared: seq<Ruleset>)
    requires Consistent(store)
  {
    && Consistent(after)
    && Includes(Existing(store), Existing(after))
    && (forall d | d in declared :: Matched(py, after, d))
    && (forall id | id in store.rulesets && !Targets(existing, declared, id) ::
          id in after.rulesets && after.rulesets[id] == store.rulesets[id])
    && (forall id | id in after.rulesets && id !in store.rulesets :: Declared(declared, after.rulesets[id]))
  }

  /** Some declaration has this ruleset's name. */
  ghost predicate Declared(declared: seq<Ruleset>, r: Ruleset) {
    exists d | d in declared :: NameOf(d) == NameOf(r)
  }

  /** One declaration, applied. */
  lemma OneApplies(hub: Hub, existing: map<Json, int>, store: Store, d: Ruleset)
    requires Faithful(hub) && Loop(existing, store, [d])
    requires One(hub, false, existing, store, d).Done?
    ensures var after := One(hub, false, existing, store, d).store;
      && Applied(hub.py, existing, store, after, [d])
      && Includes(existing, Existing(after))
      && (forall n | n in Existing(after) :: n in Existing(store) || n == NameOf(d))
  {
    hide Comparable, Index;
    IndexNames(store.rulesets, store.ids);
    var name := NameOf(d);
    assert d in [d];
    if name !in existing {
      CreateApplies(hub, existing, store, d);
    } else {
      assert existing[name] == Existing(store)[name];
      UpdateKeepsIndex(hub, store, existing[name], d);
    }
  }

  lemma CreateApplies(hub: Hub, existing: map<Json, int>, store: Store, d: Ruleset)
    requires Faithful(hub) && Loop(existing, store, [d]) && NameOf(d) !in existing
    ensures var after := Create(hub, store, d);
      && Applied(hub.py, existing, store, after, [d])
      && Includes(existing, Existing(after))
      && (forall n | n in Existing(after) :: n in Existing(store) || n == NameOf(d))
  {
    var after, id := Create(hub, store, d), hub.mint(store.rulesets.Keys);
    assert id !in store.rulesets.Keys;
    CreateExtendsIndex(hub, store, d);
    NamesAreKept(hub, store.writes, d);
    assert d in [d] && Comparable(hub.py, after.rulesets[id]) == Comparable(hub.py, d);
    hide Comparable, Index, NameOf, Existing, Applied;
    NewRulesetApplies(hub.py, existing, store, after, d, id);
  }

  /** A store with one more ruleset, for a name that was not there. */
  lemma NewRulesetApplies(py: Python, existing: map<Json, int>, store: Store, after: Store, d: Ruleset, id: int)
    requires Consistent(store) && Consistent(after) && Includes(existing, Existing(store))
    requires NameOf(d) !in Existing(store) && Existing(after) == Existing(store)[NameOf(d) := id]
    requires id !in store.rulesets && id in after.rulesets
    requires after.rulesets == store.rulesets[id := after.rulesets[id]]
    requires NameOf(after.rulesets[id]) == NameOf(d) && Comparable(py, after.rulesets[id]) == Comparable(py, d)
    ensures Applied(py, existing, store, after, [d]) && Includes(existing, Existing(after))
    ensures forall n | n in Existing(after) :: n in Existing(store) || n == NameOf(d)
  {
    hide Comparable, NameOf, Existing, Consistent;
    assert Matched(py, after, d);
    assert Declared([d], after.rulesets[id]) by { assert d in [d]; }
    hide Matched, Declared, Targets;
  }

  /** After the first declaration, the loop over the rest starts from what it needs. */
  lemma LoopContinues(hub: Hub, existing: map<Json, int>, store: Store, declared: seq<Ruleset>)
    requires Faithful(hub) && Loop(existing, store, declared) && declared != []
    requires One(hub, false, existing, store, declared[0]).Done?
    ensures Loop(existing, store, [declared[0]])
    ensures Loop(existing, One(hub, false, existing, store, declared[0]).store, declared[1..])
  {
    hide Comparable, Index, One;
    var d, rest := declared[0], declared[1..];
    OneApplies(hub, existing, store, d);
    forall e | e in rest ensures NameOf(e) != NameOf(d) {
      var i :| 0 <= i < |rest| && rest[i] == e;
      assert declared[i + 1] == e;
    }
  }

  /** A later declaration has another name, so it leaves the first one's ruleset alone. */
  lemma FirstStaysMatched(hub: Hub, existing: map<Json, int>, mid: Store, after: Store, declared: seq<Ruleset>)
    requires declared != [] && DistinctNames(declared)
    requires Consistent(mid) && Matched(hub.py, mid, declared[0]) && Loop(existing, mid, declared[1..])
    requires Applied(hub.py, existing, mid, after, declared[1..])
    ensures Matched(hub.py, after, declared[0])
  {
    hide Comparable, Index;
    var d, rest := declared[0], declared[1..];
    IndexNames(mid.rulesets, mid.ids);
    var id := Existing(mid)[NameOf(d)];
    forall e | e in rest && NameOf(e) in existing ensures existing[NameOf(e)] != id {
      var i :| 0 <= i < |rest| && rest[i] == e;
      assert declared[i + 1] == e;
      assert Existing(mid)[NameOf(e)] == existing[NameOf(e)];
    }
    assert !Targets(existing, rest, id);
  }

  /** Two stretches of a run add up. */
  lemma AppliedTwice(hub: Hub, existing: map<Json, int>, store: Store, mid: Store, after: Store, declared: seq<Ruleset>)
    requires Loop(existing, store, declared) && declared != []
    requires Applied(hub.py, existing, store, mid, [declared[0]]) && Loop(existing, mid, declared[1..])
    requires Applied(hub.py, existing, mid, after, declared[1..])
    ensures Applied(hub.py, existing, store, after, declared)
  {
    hide Comparable, Index, Matched;
    var d, rest := declared[0], declared[1..];
    assert declared == [d] + rest;
    assert d in [d] && Matched(hub.py, mid, d);
    FirstStaysMatched(hub, existing, mid, after, declared);
    forall x | x in store.rulesets && !Targets(existing, declared, x)
      ensures x in after.rulesets && after.rulesets[x] == store.rulesets[x]
    {
      assert !Targets(existing, [d], x) && !Targets(existing, rest, x);
    }
    forall x | x in after.rulesets && x !in store.rulesets ensures Declared(declared, after.rulesets[x]) {
      NewStaysNamed(hub, existing, store, mid, after, declared, x);
    }
  }

  lemma NewStaysNamed(hub: Hub, existing: map<Json, int>, store: Store, mid: Store, after: Store,
                      declared: seq<Ruleset>, x: int)
    requires Loop(existing, store, declared) && declared != []
    requires Applied(hub.py, existing, store, mid, [declared[0]])
    requires Applied(hub.py, existing, mid, after, declared[1..])
    requires x in after.rulesets && x !in store.rulesets
    ensures Declared(declared, after.rulesets[x])
  {
    hide Comparable, Index, Matched;
    var rest := declared[1..];
    assert forall e | e in rest :: e in declared;
    if x in mid.rulesets {
      assert !Targets(existing, rest, x) by {
        IndexNames(store.rulesets, store.ids);
      }
      assert Declared([declared[0]], mid.rulesets[x]);
    } else {
      assert Declared(rest, after.rulesets[x]);
    }
  }

  lemma {:induction false} ReconcileApplies(hub: Hub, existing: map<Json, int>, store: Store, declared: seq<Ruleset>)
    requires Faithful(hub) && Loop(existing, store, declared)
    requires Reconcile(hub, false, existing, store, declared).Done?
    ensures Applied(hub.py, existing, store, Reconcile(hub, false, existing, store, declared).store, declared)
    decreases declared
  {
    if declared != [] {
      hide Comparable, Index, One, Loop, Applied;
      var mid := One(hub, false, existing, store, declared[0]).store;
      LoopContinues(hub, existing, store, declared);
      OneApplies(hub, existing, store, declared[0]);
      ReconcileApplies(hub, existing, mid, declared[1..]);
      AppliedTwice(hub, existing, store, mid, Reconcile(hub, false, existing, mid, declared[1..]).store, declared);
    }
  }

  predicate AllComparable(py: Python, declared: seq<Ruleset>) {
    forall d | d in declared :: Comparable(py, d).Some?
  }

  lemma MatchedOne(hub: Hub, dryRun: bool, store: Store, d: Ruleset)
    requires Consistent(store) && Matched(hub.py, store, d)
    ensures One(hub, dryRun, Existing(store), store, d) ==
      if Comparable(hub.py, d).Some? then Done(store, 0) else Raised(store)
  {
    hide Comparable, Index;
  }

  /** A run over a store that already matches changes nothing, unless a comparison raises. */
  lemma {:induction false} MatchedIsNoOp(hub: Hub, dryRun: bool, store: Store, declared: seq<Ruleset>)
    requires Consistent(store) && forall d | d in declared :: Matched(hub.py, store, d)
    ensures Reconcile(hub, dryRun, Existing(store), store, declared) ==
      if AllComparable(hub.py, declared) then Done(store, 0) else Raised(store)
    decreases declared
  {
    if declared != [] {
      hide Comparable, Index, One, Matched;
      var d, rest := declared[0], declared[1..];
      assert declared == [d] + rest;
      assert d in declared;
      MatchedOne(hub, dryRun, store, d);
      MatchedIsNoOp(hub, dryRun, store, rest);
    }
  }

  /**
   * Applying converges: every declared ruleset matches afterwards, rulesets that no
   * declaration names are untouched, and a second run, preview or not, writes nothing
   * and counts 0, exactly when every declared ruleset can be compared at all.
   */
  lemma ApplyConverges(hub: Hub, store: Store, declared: seq<Ruleset>)
    requires Faithful(hub) && Consistent(store) && DistinctNames(declared)
    requires RunOutcome(hub, false, store, declared).Done?
    ensures var after := RunOutcome(hub, false, store, declared).store;
      && Consistent(after)
      && (forall d | d in declared :: Matched(hub.py, after, d))
      && (forall id | id in store.rulesets && (forall d | d in declared :: NameOf(store.rulesets[id]) != NameOf(d)) ::
            id in after.rulesets && after.rulesets[id] == store.rulesets[id])
      && (forall id | id in after.rulesets && id !in store.rulesets :: Declared(declared, after.rulesets[id]))
      && (forall dryRun :: RunOutcome(hub, dryRun, after, declared) ==
            if AllComparable(hub.py, declared) then Done(after, 0) else Raised(after))
  {
    hide Comparable, Index, Reconcile;
    var existing := Existing(store);
    var after := RunOutcome(hub, false, store, declared).store;
    IndexNames(store.rulesets, store.ids);
    ReconcileApplies(hub, existing, store, declared);
    forall id | id in store.rulesets && (forall d | d in declared :: NameOf(store.rulesets[id]) != NameOf(d))
      ensures id in after.rulesets && after.rulesets[id] == store.rulesets[id]
    {
      assert !Targets(existing, declared, id);
    }
    forall dryRun
      ensures RunOutcome(hub, dryRun, after, declared) ==
        if AllComparable(hub.py, declared) then Done(after, 0) else Raised(after)
    {
      MatchedIsNoOp(hub, dryRun, after, declared);
    }
  }

  // -------------------------------------------------------------------- previews

  /** The store still holds what it held at the start for every ruleset yet to be compared. */
  ghost predicate Unvisited(existing: map<Json, int>, start: Store, store: Store, declared: seq<Ruleset>) {
    forall d | d in declared && NameOf(d) in existing ::
      var id := existing[NameOf(d)];
      && (id in start.rulesets <==> id in store.rulesets)
      && (id in start.rulesets ==> start.rulesets[id] == store.rulesets[id])
  }

  lemma {:induction false} PreviewCounts(
    hub: Hub, existing: map<Json, int>, start: Store, store: Store, declared: seq<Ruleset>)
    requires Faithful(hub) && Loop(existing, store, declared) && Unvisited(existing, start, store, declared)
    ensures var preview := Reconcile(hub, true, existing, start, declared);
      var apply := Reconcile(hub, false, existing, store, declared);
      && preview.store == start
      && (preview.Done? <==> apply.Done?)
      && (preview.Done? ==> preview.changed == apply.changed)
    decreases declared
  {
    if declared != [] {
      var d, rest := declared[0], declared[1..];
      assert d in declared;
      var here := One(hub, false, existing, store, d);
      if here.Done? {
        hide Comparable, Index;
        LoopContinues(hub, existing, store, declared);
        OneApplies(hub, existing, store, d);
        StillUnvisited(hub, existing, start, store, declared);
        PreviewCounts(hub, existing, start, here.store, rest);
      }
    }
  }

  lemma StillUnvisited(hub: Hub, existing: map<Json, int>, start: Store, store: Store, declared: seq<Ruleset>)
    requires Faithful(hub) && Loop(existing, store, declared) && Unvisited(existing, start, store, declared)
    requires declared != [] && One(hub, false, existing, store, declared[0]).Done?
    ensures Unvisited(existing, start, One(hub, false, existing, store, declared[0]).store, declared[1..])
  {
    hide Comparable, Index;
    var d, rest := declared[0], declared[1..];
    var after := One(hub, false, existing, store, d).store;
    IndexNames(store.rulesets, store.ids);
    assert hub.mint(store.rulesets.Keys) !in store.rulesets.Keys;
    forall e | e in rest && NameOf(e) in existing
      ensures var id := existing[NameOf(e)];
        id in start.rulesets && id in after.rulesets && start.rulesets[id] == after.rulesets[id]
    {
      var i :| 0 <= i < |rest| && rest[i] == e;
      assert declared[i + 1] == e && e in declared;
      var id := existing[NameOf(e)];
      assert Existing(store)[NameOf(e)] == id && id in store.ids && NameOf(store.rulesets[id]) == NameOf(e);
    }
  }

  /** A preview writes nothing and counts, or raises, as applying would. */
  lemma PreviewAgrees(hub: Hub, store: Store, declared: seq<Ruleset>)
    requires Faithful(hub) && Consistent(store) && DistinctNames(declared)
    ensures var preview, apply := RunOutcome(hub, true, store, declared), RunOutcome(hub, false, store, declared);
      && preview.store == store
      && (preview.Done? <==> apply.Done?)
      && (preview.Done? ==> preview.changed == apply.changed)
  {
    PreviewCounts(hub, Existing(store), store, store, declared);
  }

  // ----------------------------------------------------------- what is counted

  /** The name in a ruleset, or null when it has none. */
  function NameIn(r: Ruleset): Json { if "name" in r then r["name"] else Null }

  /** The k-th listed ruleset has this name, and none listed after it has. */
  predicate LastNamed(store: Store, k: nat, name: Json)
    requires Consistent(store)
  {
    && k < |store.ids| && store.ids[k] in store.rulesets && NameIn(store.rulesets[store.ids[k]]) == name
    && forall j | k < j < |store.ids| && store.ids[j] in store.rulesets ::
         NameIn(store.rulesets[store.ids[j]]) != name
  }

  ghost predicate Listed(store: Store, name: Json) {
    exists id | id in store.rulesets :: NameIn(store.rulesets[id]) == name
  }

  /** The declared ruleset is not there, or the last listed one of its name compares differently. */
  ghost predicate Drifted(py: Python, store: Store, d: Ruleset)
    requires Consistent(store)
  {
    || !Listed(store, NameIn(d))
    || exists k: nat :: LastNamed(store, k, NameIn(d)) &&
         Comparable(py, store.rulesets[store.ids[k]]) != Comparable(py, d)
  }

  /** It is there, and one of the two cannot be compared at all. */
  ghost predicate Uncomparable(py: Python, store: Store, d: Ruleset)
    requires Consistent(store)
  {
    exists k: nat :: LastNamed(store, k, NameIn(d)) &&
      (Comparable(py, store.rulesets[store.ids[k]]).None? || Comparable(py, d).None?)
  }

  ghost function CountDrifted(py: Python, store: Store, declared: seq<Ruleset>): nat
    requires Consistent(store)
  {
    if declared == [] then 0
    else (if Drifted(py, store, declared[0]) then 1 else 0) + CountDrifted(py, store, declared[1..])
  }

  lemma {:induction false} IndexIsLast(rulesets: map<int, Ruleset>, ids: seq<int>, name: Json)
    requires forall id | id in ids :: id in rulesets
    ensures name !in Index(rulesets, ids) ==> forall j | 0 <= j < |ids| :: NameIn(rulesets[ids[j]]) != name
    ensures name in Index(rulesets, ids) ==>
      exists k | 0 <= k < |ids| ::
        && ids[k] == Index(rulesets, ids)[name] && NameIn(rulesets[ids[k]]) == name
        && forall j | k < j < |ids| :: NameIn(rulesets[ids[j]]) != name
  {
    if ids != [] {
      var n := |ids| - 1;
      var init, last := ids[..n], ids[n];
      assert last in ids && last in rulesets;
      assert ids == init + [last];
      IndexIsLast(rulesets, init, name);
      var index, before := Index(rulesets, ids), Index(rulesets, init);
      assert index == before[NameOf(rulesets[last]) := last] && NameOf(rulesets[last]) == NameIn(rulesets[last]);
      hide Index, NameOf, NameIn;
      assert forall j | 0 <= j < n :: init[j] == ids[j];
      if NameIn(rulesets[last]) == name {
        assert ids[n] == index[name];
      } else if name in before {
        var k :| 0 <= k < n && init[k] == before[name] && NameIn(rulesets[init[k]]) == name
                 && forall j | k < j < n :: NameIn(rulesets[init[j]]) != name;
        assert ids[k] == index[name];
      }
    }
  }

  lemma LastIsOne(store: Store, i: nat, j: nat, name: Json)
    requires Consistent(store) && LastNamed(store, i, name) && LastNamed(store, j, name)
    ensures i == j
  {
    assert store.ids[i] in store.ids && store.ids[j] in store.ids;
  }

  /** The step of the loop, in a store that stays as it is, by what is listed. */
  lemma OneCounts(hub: Hub, store: Store, d: Ruleset)
    requires Consistent(store)
    ensures var o := One(hub, true, Existing(store), store, d);
      && o.store == store
      && (o.Raised? <==> Uncomparable(hub.py, store, d))
      && (o.Done? ==> o.changed == if Drifted(hub.py, store, d) then 1 else 0)
  {
    var name := NameIn(d);
    hide Comparable;
    if name in Existing(store) {
      var k := Namesake(store, name);
      hide LastNamed, Existing;
      assert Listed(store, name);
    } else {
      NoNamesake(store, name);
      hide Existing;
    }
  }

  lemma Namesake(store: Store, name: Json) returns (k: nat)
    requires Consistent(store) && name in Existing(store)
    ensures LastNamed(store, k, name) && store.ids[k] == Existing(store)[name] && Listed(store, name)
    ensures forall i: nat | LastNamed(store, i, name) :: i == k
  {
    IndexIsLast(store.rulesets, store.ids, name);
    hide Index, NameIn;
    assert forall k | 0 <= k < |store.ids| :: store.ids[k] in store.ids;
    k :| k < |store.ids| && store.ids[k] == Existing(store)[name] && NameIn(store.rulesets[store.ids[k]]) == name
         && forall j | k < j < |store.ids| :: NameIn(store.rulesets[store.ids[j]]) != name;
    forall i: nat | LastNamed(store, i, name) ensures i == k { LastIsOne(store, i, k, name); }
  }

  lemma NoNamesake(store: Store, name: Json)
    requires Consistent(store) && name !in Existing(store)
    ensures !Listed(store, name) && forall k: nat :: !LastNamed(store, k, name)
  {
    IndexIsLast(store.rulesets, store.ids, name);
    hide Index, NameIn;
    forall id | id in store.rulesets ensures NameIn(store.rulesets[id]) != name {
      var k :| 0 <= k < |store.ids| && store.ids[k] == id;
    }
  }

  lemma {:induction false} PreviewCount(hub: Hub, store: Store, declared: seq<Ruleset>)
    requires Consistent(store)
    ensures var o := Reconcile(hub, true, Existing(store), store, declared);
      && (o.Raised? <==> exists d | d in declared :: Uncomparable(hub.py, store, d))
      && (o.Done? ==> o.changed == CountDrifted(hub.py, store, declared))
    decreases declared
  {
    hide One, Existing, Drifted, Uncomparable;
    if declared != [] {
      OneCounts(hub, store, declared[0]);
      PreviewCount(hub, store, declared[1..]);
      assert declared == [declared[0]] + declared[1..];
    }
  }

  lemma {:induction false} WritesAreCounted(hub: Hub, existing: map<Json, int>, store: Store, declared: seq<Ruleset>)
    ensures var o := Reconcile(hub, false, existing, store, declared);
      o.Done? ==> o.store.writes == store.writes + o.changed
    decreases declared
  {
    hide Comparable, NameOf;
    if declared != [] {
      var o := One(hub, false, existing, store, declared[0]);
      if o.Done? {
        WritesAreCounted(hub, existing, o.store, declared[1..]);
      }
    }
  }

  /**
   * The number a run returns: how many declared rulesets were not listed at the start or
   * differed from the last listed one of their name.  Applying writes exactly as often,
   * a preview never, and both raise exactly when something listed cannot be compared.
   */
  lemma RunCountsDrift(hub: Hub, dryRun: bool, store: Store, declared: seq<Ruleset>)
    requires Consistent(store) && (dryRun || (Faithful(hub) && DistinctNames(declared)))
    ensures var o := RunOutcome(hub, dryRun, store, declared);
      && (o.Raised? <==> exists d | d in declared :: Uncomparable(hub.py, store, d))
      && (o.Done? ==>
            && o.changed == CountDrifted(hub.py, store, declared)
            && o.store.writes == store.writes + if dryRun then 0 else o.changed)
  {
    hide Reconcile, Existing, Uncomparable, Faithful;
    PreviewCount(hub, store, declared);
    if dryRun {
      PreviewKeepsStore(hub, Existing(store), store, declared);
    } else {
      PreviewAgrees(hub, store, declared);
      WritesAreCounted(hub, Existing(store), store, declared);
    }
  }

  lemma {:induction false} PreviewKeepsStore(hub: Hub, existing: map<Json, int>, store: Store, declared: seq<Ruleset>)
    ensures Reconcile(hub, true, existing, store, declared).store == store
    decreases declared
  {
    hide Comparable, NameOf;
    if declared != [] && One(hub, true, existing, store, declared[0]).Done? {
      PreviewKeepsStore(hub, existing, store, declared[1..]);
    }
  }

  // ----------------------------------------------------------- the code itself

  /** The seam over the server: listing, reading, creating and replacing rulesets. */
  class GitHubCli {
    const hub: Hub
    var store: Store

    constructor (hub: Hub, store: Store)
      ensures this.hub == hub && this.store == store
    {
      this.hub := hub;
      this.store := store;
    }

    method GetRuleset(id: int) returns (r: Option<Ruleset>)
      ensures r == if id in store.rulesets then Some(store.rulesets[id]) else None
    {
      r := if id in store.rulesets then Some(store.rulesets[id]) else None;
    }

    method CreateRuleset(desired: Ruleset)
      modifies this
      ensures store == Create(hub, old(store), desired)
    {
      store := Create(hub, store, desired);
    }

    method UpdateRuleset(id: int, desired: Ruleset)
      modifies this
      ensures store == Update(hub, old(store), id, desired)
    {
      store := Update(hub, store, id, desired);
    }
  }

  class RulesetReconciler {
    const cli: GitHubCli
    const dryRun: bool

    constructor (cli: GitHubCli, dryRun: bool)
      ensures this.cli == cli && this.dryRun == dryRun
    {
      this.cli := cli;
      this.dryRun := dryRun;
    }

    /** What one declaration does to the server, as the model's step says; None when a comparison raises. */
    method ReconcileOne(desired: Ruleset, existing: map<Json, int>) returns (changed: Option<bool>)
      modifies cli
      ensures var o := One(cli.hub, dryRun, existing, old(cli.store), desired);
        && cli.store == o.store
        && changed == match o case Raised(_) => None case Done(_, n) => Some(n == 1)
    {
      hide Comparable;
      var name := NameOf(desired);
      if name !in existing {
        if !dryRun {
          cli.CreateRuleset(desired);
        }
        return Some(true);
      }
      var id := existing[name];
      var current := cli.GetRuleset(id);
      if current.None? {
        return None;
      }
      var drift := Drifts(cli.hub.py, current.value, desired);
      if drift.None? {
        return None;
      }
      if !drift.value {
        return Some(false);
      }
      if !dryRun {
        cli.UpdateRuleset(id, desired);
      }
      return Some(true);
    }

    /** The rulesets the server lists, by name, later ones replacing earlier ones. */
    method IndexByName() returns (existing: map<Json, int>)
      requires Consistent(cli.store)
      ensures existing == Existing(cli.store)
    {
      hide NameOf;
      existing := map[];
      for k := 0 to |cli.store.ids|
        invariant existing == Index(cli.store.rulesets, cli.store.ids[..k])
      {
        var id := cli.store.ids[k];
        assert cli.store.ids[..k + 1][..k] == cli.store.ids[..k];
        existing := existing[NameOf(cli.store.rulesets[id]) := id];
      }
      assert cli.store.ids[..|cli.store.ids|] == cli.store.ids;
    }

    /** The whole loop: its count is the model's outcome, and so is the store it leaves. */
    method Run(declared: seq<Ruleset>) returns (changed: Option<nat>)
      requires Consistent(cli.store)
      modifies cli
      ensures var o := RunOutcome(cli.hub, dryRun, old(cli.store), declared);
        && cli.store == o.store
        && changed == match o case Raised(_) => None case Done(_, n) => Some(n)
      ensures dryRun || (Faithful(cli.hub) && DistinctNames(declared)) ==>
        && (changed.None? <==> exists d | d in declared :: Uncomparable(cli.hub.py, old(cli.store), d))
        && (changed.Some? ==>
              && changed.value == CountDrifted(cli.hub.py, old(cli.store), declared)
              && cli.store.writes == old(cli.store).writes + if dryRun then 0 else changed.value)
    {
      ghost var start := cli.store;
      var existing := IndexByName();
      hide Reconcile, Existing, CountDrifted, Uncomparable, DistinctNames, Faithful;
      changed := ReconcileAll(declared, existing);
      if dryRun || (Faithful(cli.hub) && DistinctNames(declared)) {
        RunCountsDrift(cli.hub, dryRun, start, declared);
      }
    }

    /** The counting loop over the declared rulesets. */
    method ReconcileAll(declared: seq<Ruleset>, existing: map<Json, int>) returns (changed: Option<nat>)
      modifies cli
      ensures var o := Reconcile(cli.hub, dryRun, existing, old(cli.store), declared);
        && cli.store == o.store
        && changed == match o case Raised(_) => None case Done(_, n) => Some(n)
    {
      var count: nat := 0;
      for k := 0 to |declared|
        invariant Reconcile(cli.hub, dryRun, existing, old(cli.store), declared) ==
          match Reconcile(cli.hub, dryRun, existing, cli.store, declared[k..])
          case Raised(s) => Raised(s)
          case Done(s, n) => Done(s, count + n)
      {
        hide One;
        var one := ReconcileOne(declared[k], existing);
        assert declared[k..][1..] == declared[k + 1..];
        if one.None? {
          return None;
        }
        if one.value {
          count := count + 1;
        }
      }
      changed := Some(count);
    }
  }
}
