/**
 * Orphan detection: which modules are really used, when a package facade that
 * re-exports its own submodules is resolved rather than trusted.
 */
module Facades {
  import opened Text

  // -------------------------------------------------------------- dotted names

  /** One past the last dot in the first k characters, or 0. */
  function AfterLastDot(s: string, k: nat): (n: nat)
    requires k <= |s|
    ensures n <= k
    decreases k
  {
    if k == 0 then 0 else if s[k - 1] == '.' then k else AfterLastDot(s, k - 1)
  }

  /** `s.rpartition(".")`, without the dot. */
  function Head(s: string): string {
    var n := AfterLastDot(s, |s|);
    if n == 0 then [] else s[..n - 1]
  }

  function Leaf(s: string): string { s[AfterLastDot(s, |s|)..] }

  function Dotted(head: string, leaf: string): string { head + "." + leaf }

  lemma {:induction false} LastDotIs(s: string, k: nat, n: nat)
    requires 0 < n <= k <= |s| && s[n - 1] == '.' && '.' !in s[n..k]
    ensures AfterLastDot(s, k) == n
    decreases k
  {
    if k > n {
      assert s[k - 1] in s[n..k];
      assert forall c | c in s[n..k - 1] :: c in s[n..k];
      LastDotIs(s, k - 1, n);
    }
  }

  lemma {:induction false} NoDotAfter(s: string, k: nat)
    requires k <= |s|
    ensures '.' !in s[AfterLastDot(s, k)..k]
    ensures AfterLastDot(s, k) > 0 ==> s[AfterLastDot(s, k) - 1] == '.'
    decreases k
  {
    if k > 0 && s[k - 1] != '.' {
      NoDotAfter(s, k - 1);
      SliceSnoc(s, AfterLastDot(s, k - 1), k);
    }
  }

  lemma SliceSnoc(s: string, n: nat, k: nat)
    requires n < k <= |s|
    ensures s[n..k] == s[n..k - 1] + [s[k - 1]]
  {
  }

  lemma LeafHasNoDot(s: string)
    ensures '.' !in Leaf(s)
    ensures Head(s) != [] ==> s == Dotted(Head(s), Leaf(s))
  {
    NoDotAfter(s, |s|);
    assert s[AfterLastDot(s, |s|)..|s|] == Leaf(s);
  }

  lemma DottedParts(head: string, leaf: string)
    requires '.' !in leaf
    ensures Head(Dotted(head, leaf)) == head && Leaf(Dotted(head, leaf)) == leaf
  {
    var s, n := Dotted(head, leaf), |head| + 1;
    assert s[n..|s|] == leaf;
    LastDotIs(s, |s|, n);
  }

  // ------------------------------------------------------------------- closure

  /** Where an exported name, package and alias, leads to in one step. */
  type Graph = map<(string, string), set<string>>

  function Hops(graph: Graph, name: string): set<string> {
    var key := (Head(name), Leaf(name));
    if key in graph then graph[key] else {}
  }

  predicate Closed(graph: Graph, names: set<string>) {
    forall n | n in names :: Hops(graph, n) <= names
  }

  /** Every set that holds `name` and is closed under hops holds x. */
  ghost predicate Reaches(graph: Graph, name: string, x: string) {
    forall names | name in names && Closed(graph, names) :: x in names
  }

  /** The names that can turn up: the start, and whatever some exported name leads to. */
  function Universe(graph: Graph, name: string): set<string> {
    {name} + set key, x | key in graph && x in graph[key] :: x
  }

  /** Hops build new names, but only finitely many. */
  lemma UniverseIsClosed(graph: Graph, name: string)
    ensures name in Universe(graph, name) && Closed(graph, Universe(graph, name))
    ensures forall x | Reaches(graph, name, x) :: x in Universe(graph, name)
  {
    hide Head, Leaf;
    forall n, x | x in Hops(graph, n) ensures x in Universe(graph, name) {
      assert (Head(n), Leaf(n)) in graph && x in graph[(Head(n), Leaf(n))];
    }
    assert Closed(graph, Universe(graph, name));
  }

  lemma HopsAreReached(graph: Graph, name: string, current: string)
    requires Reaches(graph, name, current)
    ensures forall x | x in Hops(graph, current) :: Reaches(graph, name, x)
  {
    hide Hops;
    forall x | x in Hops(graph, current) ensures Reaches(graph, name, x) {
      forall names | name in names && Closed(graph, names) ensures x in names {
        assert current in names;
      }
    }
  }

  /** What a package name means to the code: the module it was imported from. */
  type FacadeMap = map<(string, string), string>

  /** How the code follows an entry: to the module, and to the same symbol, under its alias, in that module. */
  function Coded(facades: FacadeMap): Graph {
    map key | key in facades :: {facades[key], Dotted(facades[key], key.1)}
  }

  lemma CodedStep(facades: FacadeMap, name: string)
    ensures var key := (Head(name), Leaf(name));
      Hops(Coded(facades), name) == if key in facades then {facades[key], Dotted(facades[key], Leaf(name))} else {}
  {
  }

  /** The worklist misses nothing that the reached names lead to, and holds nothing superfluous. */
  ghost predicate InProgress(graph: Graph, name: string, reached: set<string>, pending: seq<string>) {
    && (name in reached || name in pending)
    && (forall n, x | n in reached && x in Hops(graph, n) :: x in reached || x in pending)
    && (forall x | x in reached || x in pending :: Reaches(graph, name, x))
  }

  lemma StepKeepsProgress(
    graph: Graph, name: string, reached: set<string>, rest: seq<string>, current: string, more: seq<string>)
    requires InProgress(graph, name, reached, rest + [current])
    requires forall x :: x in more <==> current !in reached && x in Hops(graph, current)
    ensures InProgress(graph, name, reached + {current}, rest + more)
  {
    hide Hops, Reaches;
    var pending := rest + [current];
    assert current in pending;
    HopsAreReached(graph, name, current);
    forall n, x | n in reached + {current} && x in Hops(graph, n)
      ensures x in reached + {current} || x in rest + more
    {
      if n in reached {
        assert x in reached || x in pending;
      }
    }
    forall x | x in reached + {current} || x in rest + more ensures Reaches(graph, name, x) {
      assert x in reached || x in pending || x in more;
    }
  }

  /** Everything that name reaches: the least set with it that is closed under re-exports. */
  method ThroughFacades(name: string, facades: FacadeMap) returns (reached: set<string>)
    ensures name in reached && Closed(Coded(facades), reached)
    ensures forall x :: x in reached <==> Reaches(Coded(facades), name, x)
  {
    hide AfterLastDot, Head, Leaf, Dotted, Universe, Hops, Coded;
    reached := {};
    var pending := [name];
    ghost var graph := Coded(facades);
    ghost var universe := Universe(graph, name);
    UniverseIsClosed(graph, name);
    while pending != []
      invariant InProgress(graph, name, reached, pending)
      decreases universe - reached, |pending|
    {
      var current := pending[|pending| - 1];
      var rest := pending[..|pending| - 1];
      assert pending == rest + [current];
      assert current in pending && current in universe;
      hide InProgress, Reaches;
      CodedStep(facades, current);
      var more := [];
      if current !in reached {
        var key := (Head(current), Leaf(current));
        if key in facades {
          var target := facades[key];
          more := [target] + [Dotted(target, Leaf(current))];
        }
        assert current in universe - reached && current !in universe - (reached + {current});
      } else {
        assert reached + {current} == reached;
      }
      StepKeepsProgress(graph, name, reached, rest, current, more);
      reached := reached + {current};
      pending := rest + more;
    }
  }

  // ------------------------------------------------------------ modules and uses

  /** One name of a from-import: the module, the name there, and what it is bound as here. */
  datatype FromImport = FromImport(source: string, name: string, alias: string)

  /** What an exported name really stands for: a name in a module. */
  datatype Meaning = Meaning(source: string, name: string)

  type Meanings = map<(string, string), Meaning>

  /** How an entry should be followed: to the module, and to the symbol under its own name there. */
  function Meant(meanings: Meanings): Graph {
    map key | key in meanings :: {meanings[key].source, Dotted(meanings[key].source, meanings[key].name)}
  }

  /** What the code keeps of the meanings: the modules. */
  function Sources(meanings: Meanings): FacadeMap {
    map key | key in meanings :: meanings[key].source
  }

  /** A module: the names it imports, its from-imports, and the modules it imports by literal. */
  datatype Module = Module(name: string, imports: set<string>, froms: seq<FromImport>, late: set<string>)

  const INIT_SUFFIX := ".__init__"

  /** The package a module is the facade of. */
  function PackageOf(name: string): Option<string> {
    if |name| >= |INIT_SUFFIX| && name[|name| - |INIT_SUFFIX|..] == INIT_SUFFIX
    then Some(name[..|name| - |INIT_SUFFIX|]) else None
  }

  predicate IsInside(name: string, package: string) { name == package || package + "." <= name }

  function Reexports(froms: seq<FromImport>, package: string, known: Meanings): Meanings
    decreases froms
  {
    if froms == [] then known
    else
      var f := froms[0];
      Reexports(froms[1..], package,
                if IsInside(f.source, package) then known[(package, f.alias) := Meaning(f.source, f.name)] else known)
  }

  /** What the facades of all packages export, later entries replacing earlier ones. */
  function MeaningsOf(mods: seq<Module>, known: Meanings): Meanings
    decreases mods
  {
    if mods == [] then known
    else MeaningsOf(mods[1..], match PackageOf(mods[0].name)
                               case Some(p) => Reexports(mods[0].froms, p, known)
                               case None => known)
  }

  function Exports(mods: seq<Module>): Meanings { MeaningsOf(mods, map[]) }

  /** The import does not count: the module is the facade of a package that the name lies in. */
  predicate IsOwnFacade(m: Module, name: string) {
    match PackageOf(m.name) case Some(p) => IsInside(name, p) case None => false
  }

  /** Some module other than the name's own facade imports it. */
  ghost predicate Imported(mods: seq<Module>, n: string) {
    exists m | m in mods :: n in m.imports && !IsOwnFacade(m, n)
  }

  /** Some imported name leads to x. */
  ghost predicate UsedIn(mods: seq<Module>, graph: Graph, x: string) {
    exists n :: Imported(mods, n) && Reaches(graph, n, x)
  }

  /** What the code counts as used, following aliases. */
  ghost predicate Used(mods: seq<Module>, x: string) { UsedIn(mods, Coded(Sources(Exports(mods))), x) }

  /** What the imports really use, following the symbols they stand for. */
  ghost predicate ReallyUsed(mods: seq<Module>, x: string) { UsedIn(mods, Meant(Exports(mods)), x) }

  predicate IsLate(mods: seq<Module>, x: string) {
    (exists m | m in mods :: x in m.late) && (exists m | m in mods :: m.name == x)
  }

  method CollectFacades(mods: seq<Module>) returns (facades: FacadeMap)
    ensures facades == Sources(Exports(mods))
  {
    hide IsInside, PackageOf;
    facades := map[];
    ghost var known: Meanings := map[];
    for i := 0 to |mods|
      invariant MeaningsOf(mods, map[]) == MeaningsOf(mods[i..], known)
      invariant facades == Sources(known)
    {
      var package := PackageOf(mods[i].name);
      ghost var start := known;
      if package.Some? {
        var froms := mods[i].froms;
        for k := 0 to |froms|
          invariant Reexports(froms, package.value, start) == Reexports(froms[k..], package.value, known)
          invariant facades == Sources(known)
        {
          assert froms[k..][1..] == froms[k + 1..];
          var f := froms[k];
          if IsInside(f.source, package.value) {
            facades := facades[(package.value, f.alias) := f.source];
            known := known[(package.value, f.alias) := Meaning(f.source, f.name)];
          }
        }
      }
      assert mods[i..][1..] == mods[i + 1..];
    }
  }

  /** The names some import leads to, and the existing modules some registry names. */
  method ReachableModules(mods: seq<Module>) returns (result: set<string>)
    ensures forall x :: x in result <==> Used(mods, x) || IsLate(mods, x)
  {
    hide MeaningsOf, Reaches, IsOwnFacade;
    var facades := CollectFacades(mods);
    var reached: set<string> := {};
    var late: set<string> := {};
    for i := 0 to |mods|
      invariant forall x :: x in reached <==>
        exists k, n | 0 <= k < i && n in mods[k].imports :: !IsOwnFacade(mods[k], n) && Reaches(Coded(facades), n, x)
      invariant forall x :: x in late <==> exists k | 0 <= k < i :: x in mods[k].late
    {
      var more := ReachedFrom(mods[i], facades);
      reached := reached + more;
      late := late + mods[i].late;
    }
    var names := set k | 0 <= k < |mods| :: mods[k].name;
    result := reached + late * names;
    forall x ensures x in reached <==> Used(mods, x) {
      if k, n :| 0 <= k < |mods| && n in mods[k].imports && !IsOwnFacade(mods[k], n) && Reaches(Coded(facades), n, x) {
        assert mods[k] in mods && Imported(mods, n);
      }
    }
    forall x ensures x in late * names <==> IsLate(mods, x) { }
  }

  method ReachedFrom(m: Module, facades: FacadeMap) returns (reached: set<string>)
    ensures forall x :: x in reached <==>
      exists n | n in m.imports :: !IsOwnFacade(m, n) && Reaches(Coded(facades), n, x)
  {
    hide Reaches, IsOwnFacade;
    reached := {};
    var todo := m.imports;
    while todo != {}
      invariant todo <= m.imports
      invariant forall x :: x in reached <==>
        exists n | n in m.imports - todo :: !IsOwnFacade(m, n) && Reaches(Coded(facades), n, x)
    {
      var n :| n in todo;
      if !IsOwnFacade(m, n) {
        var more := ThroughFacades(n, facades);
        reached := reached + more;
      }
      todo := todo - {n};
    }
  }

  /** Nothing of the module, itself or below it, is reached: it is then a candidate for the report. */
  method IsCandidate(mods: seq<Module>, name: string) returns (orphan: bool)
    ensures orphan <==> forall x | IsInside(x, name) :: !Used(mods, x) && !IsLate(mods, x)
  {
    hide Used, IsLate, IsInside;
    var reached := ReachableModules(mods);
    orphan := forall x | x in reached :: !IsInside(x, name);
  }

  // ----------------------------------------------- facades do not vouch for themselves

  /** A way into the package crosses its border somewhere. */
  lemma Crossing(graph: Graph, n: string, x: string, package: string) returns (w: string, h: string)
    requires Reaches(graph, n, x) && !IsInside(n, package) && IsInside(x, package)
    ensures Reaches(graph, n, w) && !IsInside(w, package) && h in Hops(graph, w) && IsInside(h, package)
  {
    hide Hops, Universe, IsInside;
    UniverseIsClosed(graph, n);
    var outside := set w | w in Universe(graph, n) && Reaches(graph, n, w) && !IsInside(w, package);
    assert n in outside && x !in outside;
    w :| w in outside && !(Hops(graph, w) <= outside);
    h :| h in Hops(graph, w) && h !in outside;
    HopsAreReached(graph, n, w);
  }

  /** A used name outside the package stands for something inside it. */
  ghost predicate SpentFromOutside(mods: seq<Module>, graph: Graph, package: string) {
    exists w, h :: UsedIn(mods, graph, w) && !IsInside(w, package) && h in Hops(graph, w) && IsInside(h, package)
  }

  /**
   * Something inside a package is used exactly when an import that is not its own
   * facade's names it, or a used name outside it is re-exported from inside.  What the
   * package's own facades re-export never counts by itself.
   */
  lemma FacadesCannotVouch(mods: seq<Module>, package: string)
    ensures (exists x :: IsInside(x, package) && Used(mods, x)) <==>
      || (exists n :: Imported(mods, n) && IsInside(n, package))
      || SpentFromOutside(mods, Coded(Sources(Exports(mods))), package)
  {
    var graph := Coded(Sources(Exports(mods)));
    hide MeaningsOf, Coded, Hops, IsInside, Imported;
    if x :| IsInside(x, package) && Used(mods, x) {
      var n :| Imported(mods, n) && Reaches(graph, n, x);
      if !IsInside(n, package) {
        var w, h := Crossing(graph, n, x, package);
        assert UsedIn(mods, graph, w);
      }
    }
    if n :| Imported(mods, n) && IsInside(n, package) {
      assert Reaches(graph, n, n) && Used(mods, n);
    }
    if w, h :| UsedIn(mods, graph, w) && !IsInside(w, package) && h in Hops(graph, w) && IsInside(h, package) {
      var n :| Imported(mods, n) && Reaches(graph, n, w);
      HopsAreReached(graph, n, w);
      assert Used(mods, h);
    }
  }

  /** Package names are not empty and exported names have no dot, as in any source tree. */
  ghost predicate Proper<T>(entries: map<(string, string), T>) {
    forall key | key in entries :: key.0 != [] && '.' !in key.1
  }

  predicate ProperModules(mods: seq<Module>) {
    forall m | m in mods ::
      && PackageOf(m.name) != Some([])
      && forall f | f in m.froms :: '.' !in f.alias
  }

  lemma {:induction false} MeaningsAreProper(mods: seq<Module>, known: Meanings)
    requires ProperModules(mods) && Proper(known)
    ensures Proper(MeaningsOf(mods, known))
    decreases mods
  {
    hide PackageOf;
    if mods != [] {
      var m := mods[0];
      assert m in mods;
      if PackageOf(m.name).Some? {
        ReexportsAreProper(m.froms, PackageOf(m.name).value, known);
        MeaningsAreProper(mods[1..], Reexports(m.froms, PackageOf(m.name).value, known));
      } else {
        MeaningsAreProper(mods[1..], known);
      }
    }
  }

  lemma {:induction false} ReexportsAreProper(froms: seq<FromImport>, package: string, known: Meanings)
    requires package != [] && Proper(known) && forall f | f in froms :: '.' !in f.alias
    ensures Proper(Reexports(froms, package, known))
    decreases froms
  {
    hide IsInside;
    if froms != [] {
      var f := froms[0];
      assert f in froms;
      var next :=
        if IsInside(f.source, package) then known[(package, f.alias) := Meaning(f.source, f.name)] else known;
      ReexportsAreProper(froms[1..], package, next);
    }
  }

  function Exported(key: (string, string)): string { Dotted(key.0, key.1) }

  lemma ExportedName(graph: Graph, key: (string, string))
    requires Proper(graph) && key in graph
    ensures Hops(graph, Dotted(key.0, key.1)) == graph[key]
  {
    DottedParts(key.0, key.1);
  }

  lemma HopIsExported(graph: Graph, w: string, h: string)
    requires Proper(graph) && h in Hops(graph, w)
    ensures var key := (Head(w), Leaf(w)); key in graph && h in graph[key] && w == Dotted(key.0, key.1)
  {
    LeafHasNoDot(w);
  }

  /**
   * The facades alone decide whether a package can be entered at all: no name outside
   * it leads in exactly when every exported name that stands for something inside is
   * itself inside.
   */
  lemma EntriesDecide(graph: Graph, package: string)
    requires Proper(graph)
    ensures (forall n, x | !IsInside(n, package) && IsInside(x, package) :: !Reaches(graph, n, x)) <==>
      forall key, h | key in graph && h in graph[key] && IsInside(h, package) :: IsInside(Dotted(key.0, key.1), package)
  {
    hide Hops, Dotted, IsInside, Head, Leaf, Proper;
    if n, x :| !IsInside(n, package) && IsInside(x, package) && Reaches(graph, n, x) {
      var w, h := Crossing(graph, n, x, package);
      HopIsExported(graph, w, h);
    }
    if key, h :| key in graph && h in graph[key] && IsInside(h, package) && !IsInside(Dotted(key.0, key.1), package) {
      var n := Dotted(key.0, key.1);
      ExportedName(graph, key);
      HopsAreReached(graph, n, n);
      assert Reaches(graph, n, h);
    }
  }

  // --------------------------------------------------------------------- renames

  lemma ReachesOn(graph: Graph, n: string, w: string, x: string)
    requires Reaches(graph, n, w) && Reaches(graph, w, x)
    ensures Reaches(graph, n, x)
  {
    forall names | n in names && Closed(graph, names) ensures x in names {
      assert w in names;
    }
  }

  /** One graph reaches no more than another exactly when none of its single steps does. */
  lemma StepsDecide(a: Graph, b: Graph)
    requires Proper(a)
    ensures (forall n, x | Reaches(a, n, x) :: Reaches(b, n, x)) <==>
      forall key, h | key in a && h in a[key] :: Reaches(b, Dotted(key.0, key.1), h)
  {
    hide Hops, Dotted, Head, Leaf, Proper, Universe;
    if forall key, h | key in a && h in a[key] :: Reaches(b, Dotted(key.0, key.1), h) {
      forall n, x | Reaches(a, n, x) ensures Reaches(b, n, x) {
        UniverseIsClosed(b, n);
        var reached := set w | w in Universe(b, n) && Reaches(b, n, w);
        assert n in reached;
        forall w, h | w in reached && h in Hops(a, w) ensures h in reached {
          HopIsExported(a, w, h);
          ReachesOn(b, n, w, h);
        }
        assert Closed(a, reached);
      }
    }
    if forall n, x | Reaches(a, n, x) :: Reaches(b, n, x) {
      forall key, h | key in a && h in a[key] ensures Reaches(b, Dotted(key.0, key.1), h) {
        ExportedName(a, key);
        HopsAreReached(a, Dotted(key.0, key.1), Dotted(key.0, key.1));
        assert Reaches(a, Dotted(key.0, key.1), h);
      }
    }
  }

  /** The same for what is used from a given set of modules. */
  lemma UsedStepsDecide(mods: seq<Module>, a: Graph, b: Graph)
    requires Proper(a)
    ensures (forall x | UsedIn(mods, a, x) :: UsedIn(mods, b, x)) <==>
      forall key, h | key in a && h in a[key] && UsedIn(mods, a, Exported(key)) && UsedIn(mods, b, Exported(key)) ::
        UsedIn(mods, b, h)
  {
    hide Hops, Dotted, Head, Leaf, Proper, Universe, Imported, Reaches;
    if forall key, h | key in a && h in a[key] && UsedIn(mods, a, Exported(key)) && UsedIn(mods, b, Exported(key)) ::
         UsedIn(mods, b, h) {
      forall x | UsedIn(mods, a, x) ensures UsedIn(mods, b, x) {
        var n :| Imported(mods, n) && Reaches(a, n, x);
        UsedSpreads(mods, a, b, n, x);
      }
    }
    if forall x | UsedIn(mods, a, x) :: UsedIn(mods, b, x) {
      forall key, h | key in a && h in a[key] && UsedIn(mods, a, Exported(key)) ensures UsedIn(mods, b, h) {
        ExportedName(a, key);
        UsedHop(mods, a, Exported(key), h);
      }
    }
  }

  lemma UsedHop(mods: seq<Module>, graph: Graph, w: string, h: string)
    requires UsedIn(mods, graph, w) && h in Hops(graph, w)
    ensures UsedIn(mods, graph, h)
  {
    hide Hops, Imported, Reaches;
    var n :| Imported(mods, n) && Reaches(graph, n, w);
    HopsAreReached(graph, n, w);
  }

  lemma UsedSpreads(mods: seq<Module>, a: Graph, b: Graph, n: string, x: string)
    requires Proper(a) && Imported(mods, n) && Reaches(a, n, x)
    requires forall key, h |
      key in a && h in a[key] && UsedIn(mods, a, Exported(key)) && UsedIn(mods, b, Exported(key)) :: UsedIn(mods, b, h)
    ensures UsedIn(mods, b, x)
  {
    hide Hops, Dotted, Head, Leaf, Proper, Universe, Imported;
    UniverseIsClosed(a, n);
    assert Reaches(a, n, n) && Reaches(b, n, n);
    hide UsedIn;
    var reached := set w | w in Universe(a, n) && UsedIn(mods, a, w) && UsedIn(mods, b, w);
    assert n in reached by { ImportedIsUsed(mods, a, n); ImportedIsUsed(mods, b, n); }
    forall w, h | w in reached && h in Hops(a, w) ensures h in reached {
      HopIsExported(a, w, h);
      UsedHop(mods, a, w, h);
    }
    assert Closed(a, reached);
  }

  lemma ImportedIsUsed(mods: seq<Module>, graph: Graph, n: string)
    requires Imported(mods, n)
    ensures UsedIn(mods, graph, n)
  {
    assert Reaches(graph, n, n);
  }

  /** The entry exports a symbol under another name. */
  predicate Renames(meanings: Meanings, key: (string, string)) {
    key in meanings && meanings[key].name != key.1
  }

  /** The symbol an exported name stands for. */
  function Symbol(meanings: Meanings, key: (string, string)): string
    requires key in meanings
  {
    Dotted(meanings[key].source, meanings[key].name)
  }

  /** The name the code looks for instead. */
  function Mistaken(meanings: Meanings, key: (string, string)): string
    requires key in meanings
  {
    Dotted(meanings[key].source, key.1)
  }

  lemma EntryHops(meanings: Meanings, key: (string, string))
    requires Proper(meanings) && key in meanings
    ensures Hops(Coded(Sources(meanings)), Exported(key)) == {meanings[key].source, Mistaken(meanings, key)}
    ensures Hops(Meant(meanings), Exported(key)) == {meanings[key].source, Symbol(meanings, key)}
  {
    ExportedName(Coded(Sources(meanings)), key);
    ExportedName(Meant(meanings), key);
  }

  lemma SourceIsReached(meanings: Meanings, key: (string, string))
    requires Proper(meanings) && key in meanings
    ensures Reaches(Coded(Sources(meanings)), Exported(key), meanings[key].source)
    ensures Reaches(Coded(Sources(meanings)), Exported(key), Mistaken(meanings, key))
    ensures Reaches(Meant(meanings), Exported(key), meanings[key].source)
    ensures Reaches(Meant(meanings), Exported(key), Symbol(meanings, key))
  {
    hide Dotted, Hops;
    EntryHops(meanings, key);
    HopsAreReached(Coded(Sources(meanings)), Exported(key), Exported(key));
    HopsAreReached(Meant(meanings), Exported(key), Exported(key));
  }

  /**
   * Whoever imports what: the code credits everything an import really leads to exactly
   * when it still finds every renamed symbol from its exported name, and it credits
   * nothing else exactly when what it looks for instead is really led to.  Entries that
   * keep the symbol's name never matter.
   */
  lemma RenamesDecide(meanings: Meanings)
    requires Proper(meanings)
    ensures var coded, meant := Coded(Sources(meanings)), Meant(meanings);
      && ((forall n, x | Reaches(meant, n, x) :: Reaches(coded, n, x)) <==>
            forall key | Renames(meanings, key) :: Reaches(coded, Exported(key), Symbol(meanings, key)))
      && ((forall n, x | Reaches(coded, n, x) :: Reaches(meant, n, x)) <==>
            forall key | Renames(meanings, key) :: Reaches(meant, Exported(key), Mistaken(meanings, key)))
  {
    hide Reaches, Coded, Meant, Sources, Renames, Proper;
    AllCredited(meanings);
    NoneMistaken(meanings);
  }

  lemma AllCredited(meanings: Meanings)
    requires Proper(meanings)
    ensures var coded, meant := Coded(Sources(meanings)), Meant(meanings);
      (forall n, x | Reaches(meant, n, x) :: Reaches(coded, n, x)) <==>
      forall key | Renames(meanings, key) :: Reaches(coded, Exported(key), Symbol(meanings, key))
  {
    hide Reaches, Dotted;
    forall key | key in meanings { SourceIsReached(meanings, key); }
    StepsDecide(Meant(meanings), Coded(Sources(meanings)));
  }

  lemma NoneMistaken(meanings: Meanings)
    requires Proper(meanings)
    ensures var coded, meant := Coded(Sources(meanings)), Meant(meanings);
      (forall n, x | Reaches(coded, n, x) :: Reaches(meant, n, x)) <==>
      forall key | Renames(meanings, key) :: Reaches(meant, Exported(key), Mistaken(meanings, key))
  {
    hide Reaches, Dotted;
    forall key | key in meanings { SourceIsReached(meanings, key); }
    StepsDecide(Coded(Sources(meanings)), Meant(meanings));
  }

  /** A renamed export counts both as the scan and as the imports have it. */
  ghost predicate InPlay(mods: seq<Module>, meanings: Meanings, key: (string, string)) {
    && Renames(meanings, key)
    && UsedIn(mods, Coded(Sources(meanings)), Exported(key))
    && UsedIn(mods, Meant(meanings), Exported(key))
  }

  /**
   * The same for the modules at hand: the scan misses nothing that is really used, and
   * credits nothing else, exactly when each renamed export that is used keeps it so.
   */
  lemma RenamesDecideUse(mods: seq<Module>)
    requires ProperModules(mods)
    ensures var meanings := Exports(mods);
      && ((forall x | ReallyUsed(mods, x) :: Used(mods, x)) <==>
            forall key | InPlay(mods, meanings, key) :: Used(mods, Symbol(meanings, key)))
      && ((forall x | Used(mods, x) :: ReallyUsed(mods, x)) <==>
            forall key | InPlay(mods, meanings, key) :: ReallyUsed(mods, Mistaken(meanings, key)))
  {
    assert Proper(Exports(mods)) by { MeaningsAreProper(mods, map[]); }
    hide Exports, MeaningsOf, UsedIn, InPlay, Proper, Coded, Meant, Sources, Symbol, Mistaken, ProperModules;
    MissedUse(mods, Exports(mods));
    WrongUse(mods, Exports(mods));
    assert forall x :: Used(mods, x) <==> UsedIn(mods, Coded(Sources(Exports(mods))), x);
    assert forall x :: ReallyUsed(mods, x) <==> UsedIn(mods, Meant(Exports(mods)), x);
    hide *;
  }

  lemma MissedUse(mods: seq<Module>, meanings: Meanings)
    requires Proper(meanings)
    ensures var coded, meant := Coded(Sources(meanings)), Meant(meanings);
      (forall x | UsedIn(mods, meant, x) :: UsedIn(mods, coded, x)) <==>
      forall key | InPlay(mods, meanings, key) :: UsedIn(mods, coded, Symbol(meanings, key))
  {
    var coded, meant := Coded(Sources(meanings)), Meant(meanings);
    hide Dotted, UsedIn, Hops;
    UsedStepsDecide(mods, meant, coded);
    forall key | key in meanings { EntryHops(meanings, key); }
    if forall key | InPlay(mods, meanings, key) :: UsedIn(mods, coded, Symbol(meanings, key)) {
      forall key, h |
        key in meant && h in meant[key] && UsedIn(mods, meant, Exported(key)) && UsedIn(mods, coded, Exported(key))
        ensures UsedIn(mods, coded, h)
      {
        if !Renames(meanings, key) || h == meanings[key].source {
          UsedHop(mods, coded, Exported(key), h);
        }
      }
    }
    if forall x | UsedIn(mods, meant, x) :: UsedIn(mods, coded, x) {
      forall key | InPlay(mods, meanings, key) ensures UsedIn(mods, coded, Symbol(meanings, key)) {
        UsedHop(mods, meant, Exported(key), Symbol(meanings, key));
      }
    }
  }

  lemma WrongUse(mods: seq<Module>, meanings: Meanings)
    requires Proper(meanings)
    ensures var coded, meant := Coded(Sources(meanings)), Meant(meanings);
      (forall x | UsedIn(mods, coded, x) :: UsedIn(mods, meant, x)) <==>
      forall key | InPlay(mods, meanings, key) :: UsedIn(mods, meant, Mistaken(meanings, key))
  {
    var coded, meant := Coded(Sources(meanings)), Meant(meanings);
    hide Dotted, UsedIn, Hops;
    UsedStepsDecide(mods, coded, meant);
    forall key | key in meanings { EntryHops(meanings, key); }
    if forall key | InPlay(mods, meanings, key) :: UsedIn(mods, meant, Mistaken(meanings, key)) {
      forall key, h |
        key in coded && h in coded[key] && UsedIn(mods, coded, Exported(key)) && UsedIn(mods, meant, Exported(key))
        ensures UsedIn(mods, meant, h)
      {
        if !Renames(meanings, key) || h == meanings[key].source {
          UsedHop(mods, meant, Exported(key), h);
        }
      }
    }
    if forall x | UsedIn(mods, coded, x) :: UsedIn(mods, meant, x) {
      forall key | InPlay(mods, meanings, key) ensures UsedIn(mods, meant, Mistaken(meanings, key)) {
        UsedHop(mods, coded, Exported(key), Mistaken(meanings, key));
      }
    }
  }

  // ------------------------------------------------------- what a rename costs

  /** Imported names have no dot either. */
  predicate PlainNames(meanings: Meanings) { forall key | key in meanings :: '.' !in meanings[key].name }

  /** No facade takes anything from a module of that last name. */
  predicate NoSourceNamed(meanings: Meanings, name: string) {
    forall key | key in meanings :: Leaf(meanings[key].source) != name
  }

  lemma LeafOfDotted(head: string, leaf: string)
    requires '.' !in leaf
    ensures Leaf(Dotted(head, leaf)) == leaf
  {
    DottedParts(head, leaf);
  }

  /** A renamed symbol whose name no source has is not found from its exported name. */
  lemma RenameLoses(meanings: Meanings, key: (string, string))
    requires Proper(meanings) && Renames(meanings, key) && '.' !in meanings[key].name
    requires NoSourceNamed(meanings, meanings[key].name)
    ensures !Reaches(Coded(Sources(meanings)), Exported(key), Symbol(meanings, key))
  {
    var coded, name := Coded(Sources(meanings)), meanings[key].name;
    UniverseIsClosed(coded, Exported(key));
    LeafOfDotted(key.0, key.1);
    LeafOfDotted(meanings[key].source, name);
    var others := set w | w in Universe(coded, Exported(key)) && Leaf(w) != name;
    hide Dotted, Leaf, Head, Universe;
    forall w, h | w in others && h in Hops(coded, w) ensures h in others {
      var step := (Head(w), Leaf(w));
      LeafOfDotted(meanings[step].source, step.1);
    }
    assert Closed(coded, others) && Exported(key) in others && Symbol(meanings, key) !in others;
  }

  /** Nothing stands for the alias: no source has it for a last name and no renamed symbol is called so. */
  predicate NothingNamed(meanings: Meanings, alias: string) {
    && NoSourceNamed(meanings, alias)
    && forall key | key in meanings && Renames(meanings, key) :: meanings[key].name != alias
  }

  /** What the code looks for under an alias that nothing stands for is not really led to. */
  lemma RenameMistakes(meanings: Meanings, key: (string, string))
    requires Proper(meanings) && Renames(meanings, key) && meanings[key].source != key.0
    requires PlainNames(meanings)
    requires NothingNamed(meanings, key.1)
    ensures !Reaches(Meant(meanings), Exported(key), Mistaken(meanings, key))
  {
    var meant, alias := Meant(meanings), key.1;
    UniverseIsClosed(meant, Exported(key));
    DottedParts(key.0, alias);
    DottedParts(meanings[key].source, alias);
    var others := set w | w in Universe(meant, Exported(key)) && (w == Exported(key) || Leaf(w) != alias);
    assert Mistaken(meanings, key) !in others;
    hide Dotted, Leaf, Head, Universe, Hops;
    forall w, h | w in others && h in Hops(meant, w) ensures h in others {
      MeantStep(meanings, w, h, alias);
    }
    assert Closed(meant, others);
  }

  /** A step lands on the alias only from the alias, or through a source or a renamed symbol of that name. */
  lemma MeantStep(meanings: Meanings, w: string, h: string, alias: string)
    requires h in Hops(Meant(meanings), w) && PlainNames(meanings) && NothingNamed(meanings, alias)
    requires Leaf(w) != alias || Renames(meanings, (Head(w), Leaf(w)))
    ensures Leaf(h) != alias
  {
    hide Dotted, Leaf, Head;
    var step := (Head(w), Leaf(w));
    LeafOfDotted(meanings[step].source, meanings[step].name);
  }

  /**
   * In a tree where no renamed symbol shares its name with a module that is re-exported
   * from, the code credits all it should exactly when nothing is renamed.  Where
   * moreover nothing stands for a renaming alias, it credits nothing else exactly then.
   */
  lemma AnyRenameMatters(meanings: Meanings)
    requires Proper(meanings) && PlainNames(meanings)
    ensures (forall key | Renames(meanings, key) :: NoSourceNamed(meanings, meanings[key].name)) ==>
      ((forall n, x | Reaches(Meant(meanings), n, x) :: Reaches(Coded(Sources(meanings)), n, x)) <==>
         forall key :: !Renames(meanings, key))
    ensures (forall key | Renames(meanings, key) ::
               meanings[key].source != key.0 && NothingNamed(meanings, key.1)) ==>
      ((forall n, x | Reaches(Coded(Sources(meanings)), n, x) :: Reaches(Meant(meanings), n, x)) <==>
         forall key :: !Renames(meanings, key))
  {
    RenamesDecide(meanings);
    hide Reaches, Renames, NoSourceNamed, NothingNamed, Symbol, Mistaken, Exported;
    forall key | Renames(meanings, key) && NoSourceNamed(meanings, meanings[key].name)
      ensures !Reaches(Coded(Sources(meanings)), Exported(key), Symbol(meanings, key))
    {
      RenameLoses(meanings, key);
    }
    forall key | Renames(meanings, key) && meanings[key].source != key.0 && NothingNamed(meanings, key.1)
      ensures !Reaches(Meant(meanings), Exported(key), Mistaken(meanings, key))
    {
      RenameMistakes(meanings, key);
    }
  }

  // ------------------------------------------------------------------ an example

  lemma PackageOfInit(package: string)
    ensures PackageOf(package + INIT_SUFFIX) == Some(package)
  {
  }

  /** q exports c of q.a as b, q.a has c from q.a.m, some code imports b from q, and nobody names q.a.b. */
  function AliasExample(): seq<Module> {
    [Module("q" + INIT_SUFFIX, {"q.a", "q.a.c"}, [FromImport("q.a", "c", "b")], {}),
     Module("q.a" + INIT_SUFFIX, {"q.a.m", "q.a.m.c"}, [FromImport("q.a.m", "c", "c")], {}),
     Module("q.a.m", {}, [], {}),
     Module("q.a.b", {}, [], {}),
     Module("z", {"q", "q.b"}, [FromImport("q", "b", "b")], {})]
  }

  const ALIAS_MEANINGS: Meanings := map[("q", "b") := Meaning("q.a", "c"), ("q.a", "c") := Meaning("q.a.m", "c")]

  lemma AliasPackages()
    ensures var mods := AliasExample();
      && PackageOf(mods[0].name) == Some("q") && PackageOf(mods[1].name) == Some("q.a")
      && forall i | 2 <= i < 5 :: PackageOf(mods[i].name) == None
  {
    var mods := AliasExample();
    PackageOfInit("q");
    PackageOfInit("q.a");
    assert forall i | 2 <= i < 5 :: |mods[i].name| < |INIT_SUFFIX|;
  }

  lemma AliasMeanings()
    ensures Exports(AliasExample()) == ALIAS_MEANINGS
  {
    var mods := AliasExample();
    AliasPackages();
    assert IsInside("q.a", "q") && IsInside("q.a.m", "q.a");
    assert mods[0].froms[1..] == [] && mods[1].froms[1..] == [];
    hide PackageOf, IsInside;
    assert mods[1..][1..] == mods[2..] && mods[2..][1..] == mods[3..];
    assert mods[3..][1..] == mods[4..] && mods[4..][1..] == [];
  }

  lemma AliasImports()
    ensures Imported(AliasExample(), "q.b") && forall n | Imported(AliasExample(), n) :: n == "q" || n == "q.b"
  {
    var mods := AliasExample();
    AliasPackages();
    assert IsInside("q.a", "q") && IsInside("q.a.c", "q") && IsInside("q.a.m", "q.a") && IsInside("q.a.m.c", "q.a");
    hide PackageOf, IsInside;
    assert mods[4] in mods;
  }

  /** A name without a dot is exported by nothing, so it leads nowhere. */
  lemma TopLeadsNowhere(graph: Graph, name: string, x: string)
    requires Proper(graph) && '.' !in name && Reaches(graph, name, x)
    ensures x == name
  {
    NoDotAfter(name, |name|);
    assert Hops(graph, name) == {};
    assert Closed(graph, {name});
  }

  lemma HopsOf(meanings: Meanings, head: string, leaf: string)
    requires '.' !in leaf
    ensures var (coded, meant, key) := (Coded(Sources(meanings)), Meant(meanings), (head, leaf));
      && Hops(coded, Dotted(head, leaf)) ==
           (if key in meanings then {meanings[key].source, Mistaken(meanings, key)} else {})
      && Hops(meant, Dotted(head, leaf)) ==
           (if key in meanings then {meanings[key].source, Symbol(meanings, key)} else {})
  {
    DottedParts(head, leaf);
  }

  /** Two names that lead nowhere are all that a name leading to just them reaches. */
  lemma ShortChain(graph: Graph, start: string, a: string, b: string)
    requires Hops(graph, start) == {a, b} && Hops(graph, a) == {} && Hops(graph, b) == {}
    ensures Reaches(graph, start, b) && forall x | Reaches(graph, start, x) :: x == start || x == a || x == b
  {
    hide Hops;
    assert Closed(graph, {start, a, b});
    HopsAreReached(graph, start, start);
  }

  /** And one link more. */
  lemma LongChain(graph: Graph, start: string, a: string, b: string, c: string, d: string)
    requires Hops(graph, start) == {a, b} && Hops(graph, a) == {}
    requires Hops(graph, b) == {c, d} && Hops(graph, c) == {} && Hops(graph, d) == {}
    ensures Reaches(graph, start, c)
    ensures forall x | Reaches(graph, start, x) :: x == start || x == a || x == b || x == c || x == d
  {
    hide Hops;
    assert Closed(graph, {start, a, b, c, d});
    HopsAreReached(graph, start, start);
    HopsAreReached(graph, start, b);
  }

  lemma AliasNames()
    ensures Dotted("q", "a") == "q.a" && Dotted("q", "b") == "q.b"
    ensures Dotted("q.a", "b") == "q.a.b" && Dotted("q.a", "c") == "q.a.c" && Dotted("q.a", "m") == "q.a.m"
    ensures Dotted("q.a.m", "c") == "q.a.m.c"
  {
  }

  lemma AliasKeys()
    ensures ("q", "a") !in ALIAS_MEANINGS && ("q.a", "b") !in ALIAS_MEANINGS
    ensures ("q.a", "m") !in ALIAS_MEANINGS && ("q.a.m", "c") !in ALIAS_MEANINGS
  {
    assert "a"[0] != "b"[0] && "b"[0] != "c"[0] && "m"[0] != "c"[0] && |"q"| != |"q.a"| && |"q.a"| != |"q.a.m"|;
  }

  lemma AliasChains()
    ensures var (coded, meant) := (Coded(Sources(ALIAS_MEANINGS)), Meant(ALIAS_MEANINGS));
      && Reaches(coded, "q.b", "q.a.b") && Reaches(meant, "q.b", "q.a.m")
      && (forall x | Reaches(coded, "q.b", x) :: x == "q.b" || x == "q.a" || x == "q.a.b")
      && (forall x | Reaches(meant, "q.b", x) ::
            x == "q.b" || x == "q.a" || x == "q.a.c" || x == "q.a.m" || x == "q.a.m.c")
  {
    AliasNames();
    AliasKeys();
    hide Coded, Meant, Sources, Hops, Reaches, Dotted;
    HopsOf(ALIAS_MEANINGS, "q", "a");
    HopsOf(ALIAS_MEANINGS, "q", "b");
    HopsOf(ALIAS_MEANINGS, "q.a", "b");
    HopsOf(ALIAS_MEANINGS, "q.a", "c");
    HopsOf(ALIAS_MEANINGS, "q.a", "m");
    HopsOf(ALIAS_MEANINGS, "q.a.m", "c");
    ShortChain(Coded(Sources(ALIAS_MEANINGS)), "q.b", "q.a", "q.a.b");
    LongChain(Meant(ALIAS_MEANINGS), "q.b", "q.a", "q.a.c", "q.a.m", "q.a.m.c");
  }

  lemma AliasInsides(x: string)
    ensures IsInside(x, "q.a.m") ==> x != "q" && x != "q.b" && x != "q.a" && x != "q.a.b"
    ensures IsInside(x, "q.a.b") ==>
      x != "q" && x != "q.b" && x != "q.a" && x != "q.a.c" && x != "q.a.m" && x != "q.a.m.c"
  {
    if IsInside(x, "q.a.m") { assert |x| >= 5 && x[4] == "q.a.m"[4] == 'm'; }
    if IsInside(x, "q.a.b") { assert |x| >= 5 && x[4] == "q.a.b"[4] == 'b'; }
    assert "q.a.b"[4] == 'b' && "q.a.c"[4] == 'c' && "q.a.m"[4] == 'm' && "q.a.m.c"[4] == 'm';
  }

  lemma UsedFromTwo(mods: seq<Module>, graph: Graph, top: string, name: string, x: string)
    requires Proper(graph) && '.' !in top && UsedIn(mods, graph, x)
    requires forall n | Imported(mods, n) :: n == top || n == name
    ensures x == top || Reaches(graph, name, x)
  {
    hide Imported, Reaches;
    var n :| Imported(mods, n) && Reaches(graph, n, x);
    if n == top {
      TopLeadsNowhere(graph, top, x);
    }
  }

  lemma AliasProper()
    ensures Proper(Coded(Sources(ALIAS_MEANINGS))) && Proper(Meant(ALIAS_MEANINGS))
  {
  }

  lemma AliasUses(x: string)
    ensures Used(AliasExample(), x) ==> x == "q" || x == "q.b" || x == "q.a" || x == "q.a.b"
    ensures ReallyUsed(AliasExample(), x) ==>
      x == "q" || x == "q.b" || x == "q.a" || x == "q.a.c" || x == "q.a.m" || x == "q.a.m.c"
  {
    var mods := AliasExample();
    var coded, meant := Coded(Sources(ALIAS_MEANINGS)), Meant(ALIAS_MEANINGS);
    AliasMeanings();
    AliasProper();
    hide AliasExample, Exports, Imported, Reaches, Coded, Meant, Sources, Proper, UsedIn;
    AliasImports();
    AliasChains();
    if Used(mods, x) { UsedFromTwo(mods, coded, "q", "q.b", x); }
    if ReallyUsed(mods, x) { UsedFromTwo(mods, meant, "q", "q.b", x); }
  }

  /**
   * A rename loses the symbol and can find another.  The module that defines the
   * symbol is really used and reported as an orphan, and a module that happens to
   * have the alias for a name is credited though nothing imports it.
   */
  lemma AliasMisleads()
    ensures var mods := AliasExample();
      && ReallyUsed(mods, "q.a.m") && (forall x | IsInside(x, "q.a.m") :: !Used(mods, x))
      && Used(mods, "q.a.b") && (forall x | IsInside(x, "q.a.b") :: !ReallyUsed(mods, x))
  {
    var mods := AliasExample();
    AliasMeanings();
    hide AliasExample, Exports, Imported, Reaches, Coded, Meant, Sources, IsInside;
    assert Used(mods, "q.a.b") && ReallyUsed(mods, "q.a.m") by {
      AliasImports();
      AliasChains();
    }
    hide Used, ReallyUsed;
    forall x | IsInside(x, "q.a.m") ensures !Used(mods, x) {
      AliasUses(x);
      AliasInsides(x);
    }
    forall x | IsInside(x, "q.a.b") ensures !ReallyUsed(mods, x) {
      AliasUses(x);
      AliasInsides(x);
    }
  }

  // -------------------------------------------------------------- names as written

  /** The name is the package, or the package, a dot and more. */
  ghost predicate Within(name: string, package: string) {
    name == package || exists rest :: name == package + "." + rest
  }

  lemma InsideIsWithin(name: string, package: string)
    ensures IsInside(name, package) <==> Within(name, package)
  {
    var stem := package + ".";
    if stem <= name {
      assert name == stem + name[|stem|..];
    }
  }

  lemma FacadeName(name: string, package: string)
    ensures PackageOf(name) == Some(package) <==> name == package + ".__init__"
  {
    var stem := package + ".__init__";
    if name == stem {
      assert name[|name| - 9..] == ".__init__" && name[..|name| - 9] == package;
    }
    if PackageOf(name).Some? {
      assert name == name[..|name| - 9] + ".__init__";
    }
  }

  /** An import counts unless it stands in the `__init__` of a package that the imported name lies in. */
  lemma ImportsThatCount(mods: seq<Module>, n: string)
    ensures Imported(mods, n) <==>
      exists m | m in mods && n in m.imports ::
        forall package | m.name == package + ".__init__" :: !Within(n, package)
  {
    hide IsInside, PackageOf, Within;
    forall m: Module
      ensures IsOwnFacade(m, n) <==> exists package | m.name == package + ".__init__" :: Within(n, package)
    {
      OwnFacadeByName(m, n);
    }
    hide IsOwnFacade;
  }

  lemma OwnFacadeByName(m: Module, n: string)
    ensures IsOwnFacade(m, n) <==> exists package | m.name == package + ".__init__" :: Within(n, package)
  {
    hide IsInside, PackageOf, Within;
    if IsOwnFacade(m, n) {
      var package := PackageOf(m.name).value;
      FacadeName(m.name, package);
      InsideIsWithin(n, package);
    }
    if package :| m.name == package + ".__init__" && Within(n, package) {
      FacadeName(m.name, package);
      InsideIsWithin(n, package);
    }
  }

  /** A from-import in a package's `__init__` that binds the alias to something of the package itself. */
  ghost predicate ExportsAt(m: Module, k: nat, package: string, alias: string) {
    m.name == package + ".__init__" && k < |m.froms| && m.froms[k].alias == alias && Within(m.froms[k].source, package)
  }

  ghost predicate ExportsSome(m: Module, package: string, alias: string) {
    exists k: nat :: ExportsAt(m, k, package, alias)
  }

  function Entry(meanings: Meanings, key: (string, string)): Option<Meaning> {
    if key in meanings then Some(meanings[key]) else None
  }

  /** From-imports that do not set a key leave its entry alone. */
  lemma {:induction false} ReexportsEntry(
    froms: seq<FromImport>, package: string, known: Meanings, key: (string, string))
    ensures (forall f | f in froms && IsInside(f.source, package) :: key != (package, f.alias)) ==>
      Entry(Reexports(froms, package, known), key) == Entry(known, key)
    decreases froms
  {
    hide IsInside;
    if froms != [] {
      var f := froms[0];
      assert froms == [f] + froms[1..] && f in froms;
      ReexportsEntry(froms[1..], package,
        if IsInside(f.source, package) then known[(package, f.alias) := Meaning(f.source, f.name)] else known, key);
    }
  }

  lemma {:induction false} ReexportsLast(froms: seq<FromImport>, package: string, known: Meanings, k: nat)
    requires k < |froms| && IsInside(froms[k].source, package)
    requires forall j | k < j < |froms| && IsInside(froms[j].source, package) :: froms[j].alias != froms[k].alias
    ensures Entry(Reexports(froms, package, known), (package, froms[k].alias)) ==
      Some(Meaning(froms[k].source, froms[k].name))
    decreases froms
  {
    hide IsInside;
    var f, rest := froms[0], froms[1..];
    var next := if IsInside(f.source, package) then known[(package, f.alias) := Meaning(f.source, f.name)] else known;
    if k > 0 {
      assert forall j | 0 <= j < |rest| :: rest[j] == froms[j + 1];
      ReexportsLast(rest, package, next, k - 1);
    } else {
      forall g | g in rest && IsInside(g.source, package) ensures g.alias != f.alias {
        var j :| 0 <= j < |rest| && rest[j] == g;
        assert froms[j + 1] == g;
      }
      ReexportsEntry(rest, package, next, (package, f.alias));
    }
  }

  /** What one module does to the entry of a key. */
  lemma ModuleEntry(m: Module, known: Meanings, package: string, alias: string)
    requires !ExportsSome(m, package, alias)
    ensures match PackageOf(m.name)
      case Some(p) => Entry(Reexports(m.froms, p, known), (package, alias)) == Entry(known, (package, alias))
      case None => true
  {
    hide IsInside, PackageOf, Within, Reexports, Entry;
    if PackageOf(m.name).Some? {
      var p := PackageOf(m.name).value;
      FacadeName(m.name, p);
      forall f | f in m.froms && IsInside(f.source, p) ensures (package, alias) != (p, f.alias) {
        var k: nat :| k < |m.froms| && m.froms[k] == f;
        InsideIsWithin(f.source, p);
        assert !ExportsAt(m, k, package, alias);
      }
      ReexportsEntry(m.froms, p, known, (package, alias));
    }
  }

  lemma {:induction false} NotExported(mods: seq<Module>, known: Meanings, package: string, alias: string)
    requires forall m | m in mods :: !ExportsSome(m, package, alias)
    ensures Entry(MeaningsOf(mods, known), (package, alias)) == Entry(known, (package, alias))
    decreases mods
  {
    hide PackageOf, Reexports, ExportsSome, Entry;
    if mods != [] {
      var m := mods[0];
      assert m in mods;
      ModuleEntry(m, known, package, alias);
      NotExported(mods[1..],
        match PackageOf(m.name) case Some(p) => Reexports(m.froms, p, known) case None => known, package, alias);
    }
  }

  /** The from-import at place k of module i is the last to export the alias from the package. */
  ghost predicate LastExport(mods: seq<Module>, i: nat, k: nat, package: string, alias: string) {
    && i < |mods| && ExportsAt(mods[i], k, package, alias)
    && (forall j | k < j < |mods[i].froms| :: !ExportsAt(mods[i], j, package, alias))
    && (forall j | i < j < |mods| :: !ExportsSome(mods[j], package, alias))
  }

  lemma LastInModule(m: Module, known: Meanings, k: nat, package: string, alias: string)
    requires ExportsAt(m, k, package, alias)
    requires forall j | k < j < |m.froms| :: !ExportsAt(m, j, package, alias)
    ensures PackageOf(m.name) == Some(package)
    ensures Entry(Reexports(m.froms, package, known), (package, alias)) ==
      Some(Meaning(m.froms[k].source, m.froms[k].name))
  {
    hide IsInside, PackageOf, Within, Reexports, Entry;
    FacadeName(m.name, package);
    InsideIsWithin(m.froms[k].source, package);
    forall j | k < j < |m.froms| && IsInside(m.froms[j].source, package) ensures m.froms[j].alias != alias {
      InsideIsWithin(m.froms[j].source, package);
      assert !ExportsAt(m, j, package, alias);
    }
    ReexportsLast(m.froms, package, known, k);
  }

  lemma {:induction false} LastExportStands(
    mods: seq<Module>, known: Meanings, i: nat, k: nat, package: string, alias: string)
    requires LastExport(mods, i, k, package, alias)
    ensures Entry(MeaningsOf(mods, known), (package, alias)) ==
      Some(Meaning(mods[i].froms[k].source, mods[i].froms[k].name))
    decreases mods
  {
    hide PackageOf, Reexports, ExportsSome, ExportsAt, Entry;
    var m, rest := mods[0], mods[1..];
    var next := match PackageOf(m.name) case Some(p) => Reexports(m.froms, p, known) case None => known;
    assert forall j | 0 <= j < |rest| :: rest[j] == mods[j + 1];
    assert MeaningsOf(mods, known) == MeaningsOf(rest, next);
    if i == 0 {
      LastInModule(m, known, k, package, alias);
      forall x | x in rest ensures !ExportsSome(x, package, alias) {
        var j :| 0 <= j < |rest| && rest[j] == x;
        assert mods[j + 1] == x;
      }
      NotExported(rest, next, package, alias);
    } else {
      LastExportStands(rest, next, i - 1, k, package, alias);
    }
  }

  /** A package exports an alias exactly when an `__init__` of its does, and then as the last one says. */
  lemma ExportsByImports(mods: seq<Module>, package: string, alias: string)
    ensures (package, alias) in Exports(mods) <==> exists m | m in mods :: ExportsSome(m, package, alias)
    ensures forall i, k: nat | 0 <= i < |mods| && LastExport(mods, i, k, package, alias) ::
      Entry(Exports(mods), (package, alias)) == Some(Meaning(mods[i].froms[k].source, mods[i].froms[k].name))
  {
    hide MeaningsOf, ExportsSome, Within;
    forall i: nat, k: nat | i < |mods| && LastExport(mods, i, k, package, alias)
      ensures (package, alias) in Exports(mods)
      ensures Entry(Exports(mods), (package, alias)) == Some(Meaning(mods[i].froms[k].source, mods[i].froms[k].name))
    {
      LastExportStands(mods, map[], i, k, package, alias);
    }
    if exists m | m in mods :: ExportsSome(m, package, alias) {
      var i, k := FindLast(mods, package, alias);
    } else {
      NotExported(mods, map[], package, alias);
    }
  }

  lemma {:induction false} FindLast(mods: seq<Module>, package: string, alias: string) returns (i: nat, k: nat)
    requires exists m | m in mods :: ExportsSome(m, package, alias)
    ensures i < |mods| && LastExport(mods, i, k, package, alias)
  {
    hide Within;
    var n := |mods| - 1;
    if ExportsSome(mods[n], package, alias) {
      i := n;
      k := FindLastIn(mods[n], |mods[n].froms|, package, alias);
    } else {
      assert mods == mods[..n] + [mods[n]];
      i, k := FindLast(mods[..n], package, alias);
    }
  }

  lemma {:induction false} FindLastIn(m: Module, n: nat, package: string, alias: string) returns (k: nat)
    requires n <= |m.froms| && exists k: nat :: k < n && ExportsAt(m, k, package, alias)
    ensures k < n && ExportsAt(m, k, package, alias)
    ensures forall j | k < j < n :: !ExportsAt(m, j, package, alias)
    decreases n
  {
    hide ExportsAt;
    if ExportsAt(m, n - 1, package, alias) {
      k := n - 1;
    } else {
      k := FindLastIn(m, n - 1, package, alias);
    }
  }

  // ------------------------------------------------------------- reached, by steps

  /** From one name to the next: a name of a package to the module it comes from, or to the same name there. */
  ghost predicate StepTo(facades: FacadeMap, a: string, b: string) {
    exists key | key in facades && a == key.0 + "." + key.1 ::
      b == facades[key] || b == facades[key] + "." + key.1
  }

  ghost predicate Steps(facades: FacadeMap, chain: seq<string>) {
    chain != [] && forall i | 0 <= i < |chain| - 1 :: StepTo(facades, chain[i], chain[i + 1])
  }

  ghost predicate StepsLead(facades: FacadeMap, name: string, x: string) {
    exists chain :: Steps(facades, chain) && chain[0] == name && chain[|chain| - 1] == x
  }

  lemma HopIsStep(facades: FacadeMap, a: string, b: string)
    requires Proper(facades)
    ensures b in Hops(Coded(facades), a) <==> StepTo(facades, a, b)
  {
    CodedStep(facades, a);
    LeafHasNoDot(a);
    hide Hops, Head, Leaf, Coded;
    if key :| key in facades && a == key.0 + "." + key.1 && (b == facades[key] || b == facades[key] + "." + key.1) {
      DottedParts(key.0, key.1);
      assert Dotted(key.0, key.1) == a;
      assert (Head(a), Leaf(a)) == key;
    }
    if b in Hops(Coded(facades), a) {
      var key := (Head(a), Leaf(a));
      assert key in facades && key.0 != [];
      assert a == key.0 + "." + key.1;
    }
  }

  /** The scan reaches exactly the names that a chain of such steps leads to. */
  lemma ReachesBySteps(facades: FacadeMap, name: string, x: string)
    requires Proper(facades)
    ensures Reaches(Coded(facades), name, x) <==> StepsLead(facades, name, x)
  {
    var graph := Coded(facades);
    hide Hops, StepTo, Universe, Proper, Coded;
    if Reaches(graph, name, x) {
      UniverseIsClosed(graph, name);
      var led := set w | w in Universe(graph, name) && StepsLead(facades, name, w);
      assert Steps(facades, [name]) && [name][0] == name;
      forall w, h | w in led && h in Hops(graph, w) ensures h in led {
        HopIsStep(facades, w, h);
        StepsOn(facades, name, w, h);
      }
      assert Closed(graph, led);
    }
    if chain :| Steps(facades, chain) && chain[0] == name && chain[|chain| - 1] == x {
      StepsReach(facades, chain);
    }
  }

  lemma StepsOn(facades: FacadeMap, name: string, w: string, h: string)
    requires StepsLead(facades, name, w) && StepTo(facades, w, h)
    ensures StepsLead(facades, name, h)
  {
    hide StepTo;
    var chain :| Steps(facades, chain) && chain[0] == name && chain[|chain| - 1] == w;
    var longer := chain + [h];
    assert Steps(facades, longer) && longer[0] == name && longer[|longer| - 1] == h;
  }

  lemma {:induction false} StepsReach(facades: FacadeMap, chain: seq<string>)
    requires Proper(facades) && Steps(facades, chain)
    ensures Reaches(Coded(facades), chain[0], chain[|chain| - 1])
  {
    hide StepTo, Coded, Hops, Proper;
    var n := |chain| - 1;
    if n > 0 {
      assert Steps(facades, chain[..n]);
      StepsReach(facades, chain[..n]);
      assert StepTo(facades, chain[n - 1], chain[n]);
      HopIsStep(facades, chain[n - 1], chain[n]);
      HopsAreReached(Coded(facades), chain[0], chain[n - 1]);
    }
  }
}
