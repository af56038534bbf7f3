/**
 * Extracting routes: router prefixes are pushed through delegation to a fixed
 * point, and every registration on a reached router becomes a route.
 */
module RouteTable {
  import opened Text
  import opened RoutePatterns
  import opened Ordering

  datatype Registration = Registration(router: string, path: string, methods: seq<string>, line: nat)

  /** A function that hands a router variable on to a callee. */
  datatype Delegation = Delegation(callee: string, router: string)

  /** What one function body registers, and on what. */
  datatype Scope = Scope(
    name: string,
    prefixes: map<string, string>,
    params: set<string>,
    registrations: seq<Registration>,
    delegations: seq<Delegation>)

  /** A router variable of a scope, known to carry a prefix. */
  datatype Work = Work(scope: nat, router: string, prefix: string)

  datatype Route = Route(raw: string, methods: seq<string>, scope: nat, line: nat)

  /** The path as it is displayed: converters stripped from every parameter. */
  function Display(raw: string): string { DisplayPieces(Pieces(raw)) }

  function DisplayPieces(pieces: seq<Piece>): string {
    if pieces == [] then []
    else (match pieces[0] case Char(c) => [c] case Param(d) => "{" + CutAt(':', d) + "}") + DisplayPieces(pieces[1..])
  }

  datatype RouteKey = RouteKey(path: string, methods: seq<string>)

  // ------------------------------------------------------------- the least set

  function Seeds(scopes: seq<Scope>): set<Work> {
    set i, v | 0 <= i < |scopes| && v in scopes[i].prefixes :: Work(i, v, scopes[i].prefixes[v])
  }

  /** Where w's router is handed to: every router parameter of every callee of that name. */
  function Handed(scopes: seq<Scope>, w: Work): set<Work> {
    if w.scope < |scopes| then
      set t, p | 0 <= t < |scopes| && p in scopes[t].params
                 && Delegation(scopes[t].name, w.router) in scopes[w.scope].delegations :: Work(t, p, w.prefix)
    else {}
  }

  ghost predicate Closed(scopes: seq<Scope>, reached: set<Work>) {
    && Seeds(scopes) <= reached
    && forall w | w in reached :: Handed(scopes, w) <= reached
  }

  /** The least set that holds the constructed routers and is closed under delegation. */
  ghost predicate LeastClosed(scopes: seq<Scope>, reached: set<Work>) {
    Closed(scopes, reached) && forall other | Closed(scopes, other) :: reached <= other
  }

  function KeyOf(w: Work, r: Registration): RouteKey {
    RouteKey(Display(w.prefix + r.path), r.methods)
  }

  /** The reached router w registers this display path with these methods. */
  predicate RegistersAt(scopes: seq<Scope>, w: Work, key: RouteKey) {
    w.scope < |scopes| && exists r | r in scopes[w.scope].registrations :: r.router == w.router && key == KeyOf(w, r)
  }

  ghost predicate Registers(scopes: seq<Scope>, reached: set<Work>, key: RouteKey) {
    exists w | w in reached :: RegistersAt(scopes, w, key)
  }

  /** The route is w's prefix + path for one of the registrations on w's router. */
  predicate ResolvedAt(scopes: seq<Scope>, w: Work, route: Route) {
    w.scope < |scopes| && exists r | r in scopes[w.scope].registrations ::
      r.router == w.router && route == Route(w.prefix + r.path, r.methods, w.scope, r.line)
  }

  ghost predicate Resolved(scopes: seq<Scope>, reached: set<Work>, route: Route) {
    exists w | w in reached :: ResolvedAt(scopes, w, route)
  }

  /** The first of these registrations on w's router with that key, as a route. */
  function FirstOf(w: Work, regs: seq<Registration>, key: RouteKey): Option<Route>
    decreases regs
  {
    if regs == [] then None
    else if regs[0].router == w.router && key == KeyOf(w, regs[0]) then
      Some(Route(w.prefix + regs[0].path, regs[0].methods, w.scope, regs[0].line))
    else FirstOf(w, regs[1..], key)
  }

  function FirstAt(scopes: seq<Scope>, w: Work, key: RouteKey): Option<Route> {
    if w.scope < |scopes| then FirstOf(w, scopes[w.scope].registrations, key) else None
  }

  lemma {:induction false} FirstOfIs(w: Work, regs: seq<Registration>, key: RouteKey)
    ensures FirstOf(w, regs, key).Some? <==> exists r | r in regs :: r.router == w.router && key == KeyOf(w, r)
    ensures match FirstOf(w, regs, key)
      case Some(route) => key == RouteKey(Display(route.raw), route.methods) && exists r | r in regs ::
        r.router == w.router && route == Route(w.prefix + r.path, r.methods, w.scope, r.line)
      case None => true
    decreases regs
  {
    hide Display;
    if regs != [] {
      FirstOfIs(w, regs[1..], key);
      assert regs == [regs[0]] + regs[1..];
      assert regs[0] in regs;
    }
  }

  /** Of the registrations on a router with one displayed path and the same methods, the first is the route. */
  lemma {:induction false} FirstIsEarliest(w: Work, regs: seq<Registration>, key: RouteKey, i: nat)
    requires i < |regs| && RegistersThere(w, regs[i], key)
    requires forall j | 0 <= j < i :: !RegistersThere(w, regs[j], key)
    ensures FirstOf(w, regs, key) == Some(Route(w.prefix + regs[i].path, regs[i].methods, w.scope, regs[i].line))
    decreases regs
  {
    hide Display;
    if i > 0 {
      assert !RegistersThere(w, regs[0], key);
      FirstIsEarliest(w, regs[1..], key, i - 1);
    }
  }

  predicate RegistersThere(w: Work, r: Registration, key: RouteKey) {
    r.router == w.router && Display(w.prefix + r.path) == key.path && r.methods == key.methods
  }

  /** The routers that at most n delegations lead to. */
  function Within(scopes: seq<Scope>, n: nat): set<Work> {
    if n == 0 then Seeds(scopes)
    else Within(scopes, n - 1) + set w, x | w in Within(scopes, n - 1) && x in Handed(scopes, w) :: x
  }

  lemma {:induction false} WithinGrows(scopes: seq<Scope>, m: nat, n: nat)
    requires m <= n
    ensures Within(scopes, m) <= Within(scopes, n)
    decreases n
  {
    hide Handed, Seeds;
    if m < n {
      WithinGrows(scopes, m, n - 1);
    }
  }

  /** w is no more delegations away than v. */
  ghost predicate NoFarther(scopes: seq<Scope>, w: Work, v: Work) {
    forall n: nat | v in Within(scopes, n) :: w in Within(scopes, n)
  }

  /** And of two constructed routers, w's function comes no later in the sources. */
  ghost predicate NoLater(scopes: seq<Scope>, w: Work, v: Work) {
    NoFarther(scopes, w, v) && (w in Seeds(scopes) && v in Seeds(scopes) ==> w.scope <= v.scope)
  }

  /** The kept route is the first of its key on a router the fewest delegations away, constructed ones in order. */
  ghost predicate KeptAt(scopes: seq<Scope>, seen: set<Work>, key: RouteKey, route: Route, w: Work) {
    && w in seen && FirstAt(scopes, w, key) == Some(route)
    && forall v | v in seen && RegistersAt(scopes, v, key) :: NoLater(scopes, w, v)
  }

  // ---------------------------------------------------------- a finite universe

  function Vars(scopes: seq<Scope>): set<string> {
    set i, v | 0 <= i < |scopes| && v in scopes[i].prefixes.Keys + scopes[i].params :: v
  }

  function Prefixes(scopes: seq<Scope>): set<string> {
    set i, v | 0 <= i < |scopes| && v in scopes[i].prefixes :: scopes[i].prefixes[v]
  }

  function Universe(scopes: seq<Scope>): set<Work> {
    set i, v, p | 0 <= i < |scopes| && v in Vars(scopes) && p in Prefixes(scopes) :: Work(i, v, p)
  }

  /** Delegation never makes a new prefix, so everything reached lives in a finite universe. */
  lemma UniverseIsClosed(scopes: seq<Scope>)
    ensures Closed(scopes, Universe(scopes))
  {
    forall w | w in Seeds(scopes) ensures w in Universe(scopes) {
      assert w.router in scopes[w.scope].prefixes.Keys + scopes[w.scope].params;
    }
    forall w, x | w in Universe(scopes) && x in Handed(scopes, w) ensures x in Universe(scopes) {
      assert x.router in scopes[x.scope].prefixes.Keys + scopes[x.scope].params;
    }
  }

  // ----------------------------------------------------------- the code itself

  method CollectSeeds(scopes: seq<Scope>) returns (work: seq<Work>)
    ensures forall w :: w in work <==> w in Seeds(scopes)
    ensures forall i, j | 0 <= i < j < |work| :: work[i].scope <= work[j].scope
  {
    work := [];
    for i := 0 to |scopes|
      invariant forall w :: w in work <==> w in Seeds(scopes) && w.scope < i
      invariant forall m, n | 0 <= m < n < |work| :: work[m].scope <= work[n].scope
    {
      var todo := scopes[i].prefixes.Keys;
      ghost var before := work;
      while todo != {}
        invariant todo <= scopes[i].prefixes.Keys
        invariant forall m, n | 0 <= m < n < |work| :: work[m].scope <= work[n].scope
        invariant forall w | w in work :: w.scope <= i
        invariant forall w :: w in work <==> w in before || (w in Seeds(scopes) && w.scope == i && w.router !in todo)
      {
        var v :| v in todo;
        work := work + [Work(i, v, scopes[i].prefixes[v])];
        todo := todo - {v};
      }
    }
  }

  /** The index lists, under each name, the scopes below n of that name that take a router. */
  predicate IndexesRegistrars(scopes: seq<Scope>, registrars: map<string, seq<nat>>, n: nat)
    requires n <= |scopes|
  {
    && (forall name | name in registrars :: forall k | 0 <= k < |registrars[name]| ::
          registrars[name][k] < n && scopes[registrars[name][k]].name == name)
    && (forall t | 0 <= t < n && scopes[t].params != {} ::
          scopes[t].name in registrars && t in registrars[scopes[t].name])
  }

  /** The scopes that take a router, by name. */
  method CollectRegistrars(scopes: seq<Scope>) returns (registrars: map<string, seq<nat>>)
    ensures IndexesRegistrars(scopes, registrars, |scopes|)
  {
    registrars := map[];
    for i := 0 to |scopes|
      invariant IndexesRegistrars(scopes, registrars, i)
    {
      var name := scopes[i].name;
      if scopes[i].params != {} {
        var known := if name in registrars then registrars[name] else [];
        registrars := registrars[name := known + [i]];
      }
    }
  }

  function Get(routes: map<RouteKey, Route>, key: RouteKey): Option<Route> {
    if key in routes then Some(routes[key]) else None
  }

  /** Record w's registrations; an earlier route with the same key stays. */
  method RegisterAll(scopes: seq<Scope>, w: Work, before: map<RouteKey, Route>) returns (routes: map<RouteKey, Route>)
    requires w.scope < |scopes|
    ensures forall key :: Get(routes, key) == if key in before then Some(before[key]) else FirstAt(scopes, w, key)
  {
    hide Display;
    routes := before;
    var regs := scopes[w.scope].registrations;
    assert regs[0..] == regs;
    for i := 0 to |regs|
      invariant forall key | key in before :: Get(routes, key) == Some(before[key])
      invariant forall key | key !in before ::
        FirstOf(w, regs, key) == if key in routes then Some(routes[key]) else FirstOf(w, regs[i..], key)
    {
      var r := regs[i];
      assert regs[i..][1..] == regs[i + 1..];
      if r.router == w.router {
        var route := Route(w.prefix + r.path, r.methods, w.scope, r.line);
        var key := KeyOf(w, r);
        if key !in routes {
          routes := routes[key := route];
        }
      }
    }
    assert regs[|regs|..] == [];
  }

  /** Queue w's router for every callee it is handed to. */
  method Delegate(scopes: seq<Scope>, registrars: map<string, seq<nat>>, w: Work) returns (work: seq<Work>)
    requires w.scope < |scopes|
    requires IndexesRegistrars(scopes, registrars, |scopes|)
    ensures forall x :: x in work <==> x in Handed(scopes, w)
  {
    work := [];
    var dels := scopes[w.scope].delegations;
    for i := 0 to |dels|
      invariant forall x :: x in work ==> x in Handed(scopes, w)
      invariant forall x, k |
        x in Handed(scopes, w) && 0 <= k < i && dels[k] == Delegation(scopes[x.scope].name, w.router) :: x in work
    {
      if dels[i].router == w.router && dels[i].callee in registrars {
        var targets := registrars[dels[i].callee];
        ghost var before := work;
        for j := 0 to |targets|
          invariant forall x :: x in before ==> x in work
          invariant forall x :: x in work ==> x in Handed(scopes, w)
          invariant forall x, k | x in Handed(scopes, w) && 0 <= k < j && x.scope == targets[k] :: x in work
        {
          var t, name := targets[j], dels[i].callee;
          assert registrars[name][j] == t < |scopes| && scopes[t].name == name;
          assert dels[i] in dels && dels[i] == Delegation(name, w.router);
          var more := Handover(scopes, t, w.prefix);
          work := work + more;
        }
      }
    }
    forall x | x in Handed(scopes, w) ensures x in work {
      var k :| 0 <= k < |dels| && dels[k] == Delegation(scopes[x.scope].name, w.router);
    }
  }

  /** One entry per router parameter of the callee, in any order. */
  method Handover(scopes: seq<Scope>, t: nat, prefix: string) returns (work: seq<Work>)
    requires t < |scopes|
    ensures forall x :: x in work <==> x.scope == t && x.router in scopes[t].params && x.prefix == prefix
  {
    work := [];
    var todo := scopes[t].params;
    while todo != {}
      invariant todo <= scopes[t].params
      invariant forall x :: x in work <==> x.scope == t && x.router in scopes[t].params - todo && x.prefix == prefix
    {
      var p :| p in todo;
      work := work + [Work(t, p, prefix)];
      todo := todo - {p};
    }
  }

  /** The worklist holds nothing a closed set could do without, and misses nothing that seen implies. */
  ghost predicate InProgress(scopes: seq<Scope>, seen: set<Work>, work: seq<Work>) {
    && (forall w | w in Seeds(scopes) :: w in seen || w in work)
    && (forall w, x | w in seen && x in Handed(scopes, w) :: x in seen || x in work)
    && (forall other | Closed(scopes, other) :: seen <= other && forall w | w in work :: w in other)
  }

  lemma WorkStep(scopes: seq<Scope>, seen: set<Work>, w: Work, rest: seq<Work>, more: seq<Work>)
    requires InProgress(scopes, seen, [w] + rest)
    requires forall x :: x in more <==> x in Handed(scopes, w)
    ensures InProgress(scopes, seen + {w}, rest + more)
  {
    hide Handed, Seeds;
    var work := [w] + rest;
    forall x | x in Seeds(scopes) ensures x in seen + {w} || x in rest + more {
      assert x in seen || x in work;
    }
    forall v, x | v in seen + {w} && x in Handed(scopes, v) ensures x in seen + {w} || x in rest + more {
      if v in seen {
        assert x in seen || x in work;
      } else {
        assert x in more;
      }
    }
    forall other | Closed(scopes, other)
      ensures seen + {w} <= other && forall x | x in rest + more :: x in other
    {
      assert w in work && w in other;
      assert Handed(scopes, w) <= other;
      forall x | x in rest + more ensures x in other {
        if x in rest {
          assert x in work;
        }
      }
    }
  }

  /** An entry seen before can be dropped. */
  lemma WorkSkip(scopes: seq<Scope>, seen: set<Work>, w: Work, rest: seq<Work>)
    requires InProgress(scopes, seen, [w] + rest) && w in seen
    ensures InProgress(scopes, seen, rest)
  {
    hide Handed, Seeds;
    var work := [w] + rest;
    forall x | x in Seeds(scopes) ensures x in seen || x in rest {
      assert x in seen || x in work;
    }
    forall v, x | v in seen && x in Handed(scopes, v) ensures x in seen || x in rest {
      assert x in seen || x in work;
    }
    forall other | Closed(scopes, other) ensures seen <= other && forall x | x in rest :: x in other {
      forall x | x in rest ensures x in other { assert x in work; }
    }
  }

  /** The routes recorded so far are those of the routers seen so far. */
  ghost predicate Recorded(scopes: seq<Scope>, seen: set<Work>, routes: map<RouteKey, Route>) {
    && (forall key :: key in routes <==> Registers(scopes, seen, key))
    && (forall key | key in routes ::
          && Resolved(scopes, seen, routes[key]) && key == RouteKey(Display(routes[key].raw), routes[key].methods)
          && exists w :: KeptAt(scopes, seen, key, routes[key], w))
  }

  /** Of the routers visited so far, in order, the first that registers the key provides its route. */
  function FirstIn(scopes: seq<Scope>, order: seq<Work>, key: RouteKey): Option<Route> {
    if order == [] then None
    else
      var n := |order| - 1;
      var earlier := FirstIn(scopes, order[..n], key);
      if earlier.Some? then earlier else FirstAt(scopes, order[n], key)
  }

  /** No router comes before one that fewer delegations lead to, and constructed ones come in order. */
  ghost predicate NearestFirst(scopes: seq<Scope>, order: seq<Work>) {
    forall i, j | 0 <= i < j < |order| :: NoLater(scopes, order[i], order[j])
  }

  lemma {:induction false} FirstInIs(scopes: seq<Scope>, order: seq<Work>, key: RouteKey) returns (k: nat)
    ensures if FirstIn(scopes, order, key).None? then forall w | w in order :: FirstAt(scopes, w, key).None?
      else k < |order| && FirstAt(scopes, order[k], key) == FirstIn(scopes, order, key)
           && forall i | 0 <= i < k :: FirstAt(scopes, order[i], key).None?
  {
    hide FirstAt;
    k := 0;
    if order != [] {
      var n := |order| - 1;
      k := FirstInIs(scopes, order[..n], key);
      if FirstIn(scopes, order[..n], key).None? {
        assert forall i | 0 <= i < n :: order[i] in order[..n];
        k := n;
      }
    }
  }

  lemma FirstAtIs(scopes: seq<Scope>, w: Work, key: RouteKey)
    ensures FirstAt(scopes, w, key).Some? <==> RegistersAt(scopes, w, key)
    ensures match FirstAt(scopes, w, key)
      case Some(route) => ResolvedAt(scopes, w, route) && key == RouteKey(Display(route.raw), route.methods)
      case None => true
  {
    hide Display;
    if w.scope < |scopes| {
      FirstOfIs(w, scopes[w.scope].registrations, key);
    }
  }

  /** Visiting nearest routers first, and keeping the first route of each key, keeps the nearest. */
  lemma FirstIsKept(scopes: seq<Scope>, order: seq<Work>, seen: set<Work>, routes: map<RouteKey, Route>)
    requires NearestFirst(scopes, order) && forall w :: w in seen <==> w in order
    requires forall key :: Get(routes, key) == FirstIn(scopes, order, key)
    ensures Recorded(scopes, seen, routes)
  {
    hide Display, FirstAt, RegistersAt, ResolvedAt, NoLater, FirstIn;
    forall key
      ensures key in routes <==> Registers(scopes, seen, key)
      ensures key in routes ==>
        && Resolved(scopes, seen, routes[key]) && key == RouteKey(Display(routes[key].raw), routes[key].methods)
        && exists w :: KeptAt(scopes, seen, key, routes[key], w)
    {
      assert key in routes <==> Get(routes, key).Some?;
      var k := FirstInIs(scopes, order, key);
      forall w { FirstAtIs(scopes, w, key); }
      if key in routes {
        assert order[k] in order && FirstAt(scopes, order[k], key) == Some(routes[key]);
        forall v | v in seen && RegistersAt(scopes, v, key) ensures NoLater(scopes, order[k], v) {
          var j :| 0 <= j < |order| && order[j] == v;
          if j == k { Reflexive(scopes, v); }
        }
        assert KeptAt(scopes, seen, key, routes[key], order[k]);
      }
    }
  }

  lemma Reflexive(scopes: seq<Scope>, w: Work)
    ensures NoLater(scopes, w, w)
  {
  }

  /** The queue is a layer of what at most d delegations lead to, then what one more does. */
  ghost predicate Layered(scopes: seq<Scope>, order: seq<Work>, layer: seq<Work>, next: seq<Work>, d: nat) {
    && (forall w | w in order || w in layer :: w in Within(scopes, d))
    && (forall w | w in next :: w in Within(scopes, d + 1))
    && (forall w | w in Within(scopes, d) :: w in order || w in layer)
    && (d > 0 ==> forall w | w in Within(scopes, d - 1) :: w in order)
    && (d == 0 ==> InScopeOrder(order, layer))
  }

  /** What is still to be visited is in scope order, and none of it comes before what was visited. */
  ghost predicate InScopeOrder(order: seq<Work>, work: seq<Work>) {
    && (forall i, j | 0 <= i < j < |work| :: work[i].scope <= work[j].scope)
    && (forall v, i | v in order && 0 <= i < |work| :: v.scope <= work[i].scope)
  }

  /** Once a layer is done, the queue holds the next one. */
  lemma NextLayer(scopes: seq<Scope>, order: seq<Work>, next: seq<Work>, d: nat)
    requires Layered(scopes, order, [], next, d)
    requires forall w, x | w in order && x in Handed(scopes, w) :: x in order || x in next
    ensures Layered(scopes, order, next, [], d + 1)
  {
    hide Handed, Seeds;
    WithinGrows(scopes, d, d + 1);
    forall w | w in Within(scopes, d + 1) ensures w in order || w in next {
      if w !in Within(scopes, d) {
        var v :| v in Within(scopes, d) && w in Handed(scopes, v);
        assert v in order;
      }
    }
    hide Within;
  }

  /** Once the first entry has been visited, the rest is in scope order behind it. */
  lemma ScopeOrderStep(order: seq<Work>, layer: seq<Work>)
    requires layer != [] && InScopeOrder(order, layer)
    ensures InScopeOrder(order, layer[1..]) && InScopeOrder(order + [layer[0]], layer[1..])
    ensures forall v | v in order :: v.scope <= layer[0].scope
  {
  }

  lemma LayerSkip(scopes: seq<Scope>, order: seq<Work>, layer: seq<Work>, next: seq<Work>, d: nat)
    requires layer != [] && layer[0] in order && Layered(scopes, order, layer, next, d)
    ensures Layered(scopes, order, layer[1..], next, d)
  {
    hide Within, InScopeOrder;
    if d == 0 { ScopeOrderStep(order, layer); }
    assert layer == [layer[0]] + layer[1..];
  }

  /** A router of the current layer that is new comes after all that were visited. */
  lemma VisitedIsNearer(scopes: seq<Scope>, order: seq<Work>, w: Work, d: nat)
    requires w !in order && w in Within(scopes, d) && NearestFirst(scopes, order)
    requires forall v | v in order :: v in Within(scopes, d)
    requires d > 0 ==> forall v | v in Within(scopes, d - 1) :: v in order
    requires d == 0 ==> forall v | v in order :: v.scope <= w.scope
    ensures NearestFirst(scopes, order + [w])
  {
    hide Within, Seeds;
    if d > 0 {
      NotASeed(scopes, order, w, d);
    }
    forall v | v in order ensures NoLater(scopes, v, w) {
      forall n: nat | w in Within(scopes, n) ensures v in Within(scopes, n) {
        if n < d {
          WithinGrows(scopes, n, d - 1);
        } else {
          WithinGrows(scopes, d, n);
        }
      }
      assert NoFarther(scopes, v, w);
    }
    hide NoLater;
  }

  lemma NotASeed(scopes: seq<Scope>, order: seq<Work>, w: Work, d: nat)
    requires d > 0 && w !in order && forall v | v in Within(scopes, d - 1) :: v in order
    ensures w !in Seeds(scopes)
  {
    WithinGrows(scopes, 0, d - 1);
    assert Within(scopes, 0) == Seeds(scopes);
    hide Seeds, Within;
  }

  lemma WithinStep(scopes: seq<Scope>, w: Work, d: nat)
    requires w in Within(scopes, d)
    ensures forall x | x in Handed(scopes, w) :: x in Within(scopes, d + 1)
  {
    hide Handed, Seeds;
  }

  lemma LayerStep(
    scopes: seq<Scope>, order: seq<Work>, layer: seq<Work>, next: seq<Work>, d: nat, more: seq<Work>)
    requires layer != [] && layer[0] !in order && Layered(scopes, order, layer, next, d) && NearestFirst(scopes, order)
    requires forall x | x in more :: x in Handed(scopes, layer[0])
    ensures Layered(scopes, order + [layer[0]], layer[1..], next + more, d)
    ensures NearestFirst(scopes, order + [layer[0]])
  {
    hide Handed, Within, NearestFirst, InScopeOrder;
    assert layer[0] in layer;
    if d == 0 { ScopeOrderStep(order, layer); }
    WithinStep(scopes, layer[0], d);
    VisitedIsNearer(scopes, order, layer[0], d);
    assert layer == [layer[0]] + layer[1..];
  }

  /**
   * The worklist ends on every delegation graph.  What it has seen is the least set
   * closed under delegation, and the routes are exactly prefix + path over that set,
   * one per display path and methods: the first registered on a nearest router, and of
   * constructed routers on one in the earliest function.
   */
  method Extract(scopes: seq<Scope>) returns (routes: map<RouteKey, Route>, seen: set<Work>)
    ensures LeastClosed(scopes, seen) && forall w :: w in seen <==> LedTo(scopes, w)
    ensures Recorded(scopes, seen, routes)
  {
    hide FirstAt, RegistersAt, ResolvedAt, Display, Seeds, Handed, Universe, LedTo;
    hide Within, NoLater, Layered, NearestFirst, Recorded;
    var registrars := CollectRegistrars(scopes);
    routes := map[];
    seen := {};
    var work := CollectSeeds(scopes);
    ghost var universe := Universe(scopes);
    UniverseIsClosed(scopes);
    ghost var order: seq<Work>, layer: seq<Work>, next: seq<Work>, d: nat := [], work, [], 0;
    FirstLayer(scopes, work);
    while work != []
      invariant InProgress(scopes, seen, work)
      invariant forall w :: w in seen <==> w in order
      invariant work == layer + next && Layered(scopes, order, layer, next, d) && NearestFirst(scopes, order)
      invariant forall key :: Get(routes, key) == FirstIn(scopes, order, key)
      decreases universe - seen, |work|
    {
      var w, rest := work[0], work[1..];
      assert work == [w] + rest;
      assert w in work && w in universe;
      if layer == [] {
        assert layer + next == next;
        assert next + [] == next;
        NextLayer(scopes, order, next, d);
        layer, next, d := next, [], d + 1;
      }
      QueueHead(layer, next);
      if w in seen {
        WorkSkip(scopes, seen, w, rest);
        LayerSkip(scopes, order, layer, next, d);
        work := rest;
      } else {
        InUniverse(scopes, w);
        routes := RegisterAll(scopes, w, routes);
        var more := Delegate(scopes, registrars, w);
        WorkStep(scopes, seen, w, rest, more);
        LayerStep(scopes, order, layer, next, d, more);
        assert w in universe - seen && w !in universe - (seen + {w});
        assert (order + [w])[..|order|] == order;
        seen := seen + {w};
        order := order + [w];
        QueueTail(layer, next, more);
        work := rest + more;
        next := next + more;
      }
      layer := layer[1..];
    }
    FirstIsKept(scopes, order, seen, routes);
    ReachedByChain(scopes, seen);
  }

  lemma QueueHead(layer: seq<Work>, next: seq<Work>)
    requires layer != []
    ensures (layer + next)[0] == layer[0] && (layer + next)[1..] == layer[1..] + next
  {
  }

  lemma QueueTail(layer: seq<Work>, next: seq<Work>, more: seq<Work>)
    requires layer != []
    ensures (layer + next)[1..] + more == layer[1..] + (next + more)
  {
  }

  lemma FirstLayer(scopes: seq<Scope>, work: seq<Work>)
    requires forall w :: w in work <==> w in Seeds(scopes)
    requires forall i, j | 0 <= i < j < |work| :: work[i].scope <= work[j].scope
    ensures Layered(scopes, [], work, [], 0) && NearestFirst(scopes, [])
  {
    hide Seeds;
  }

  lemma InUniverse(scopes: seq<Scope>, w: Work)
    requires w in Universe(scopes)
    ensures w.scope < |scopes|
  {
  }

  // ------------------------------------------------------ reached, by delegation chains

  /** A router that a function constructs with this prefix. */
  predicate Constructed(scopes: seq<Scope>, w: Work) {
    && w.scope < |scopes| && w.router in scopes[w.scope].prefixes
    && scopes[w.scope].prefixes[w.router] == w.prefix
  }

  /** w's function calls x's, handing it w's router, and x's function takes it as its parameter. */
  predicate HandsOn(scopes: seq<Scope>, w: Work, x: Work) {
    && w.scope < |scopes| && x.scope < |scopes|
    && (exists d | d in scopes[w.scope].delegations :: d.callee == scopes[x.scope].name && d.router == w.router)
    && x.router in scopes[x.scope].params && x.prefix == w.prefix
  }

  /** A chain of delegations that starts at a constructed router. */
  predicate Chain(scopes: seq<Scope>, chain: seq<Work>) {
    && chain != [] && Constructed(scopes, chain[0])
    && forall i | 0 <= i < |chain| - 1 :: HandsOn(scopes, chain[i], chain[i + 1])
  }

  ghost predicate LedTo(scopes: seq<Scope>, w: Work) {
    exists chain :: Chain(scopes, chain) && chain[|chain| - 1] == w
  }

  lemma HandedIsHandsOn(scopes: seq<Scope>, w: Work, x: Work)
    ensures x in Handed(scopes, w) <==> HandsOn(scopes, w, x)
    ensures w in Seeds(scopes) <==> Constructed(scopes, w)
  {
    if HandsOn(scopes, w, x) {
      var d :| d in scopes[w.scope].delegations && d.callee == scopes[x.scope].name && d.router == w.router;
      assert d == Delegation(scopes[x.scope].name, w.router);
    }
  }

  lemma ChainStart(scopes: seq<Scope>, w: Work)
    requires Constructed(scopes, w)
    ensures LedTo(scopes, w)
  {
    assert Chain(scopes, [w]);
  }

  lemma ChainStep(scopes: seq<Scope>, w: Work, x: Work)
    requires LedTo(scopes, w) && HandsOn(scopes, w, x)
    ensures LedTo(scopes, x)
  {
    hide HandsOn, Constructed;
    var chain :| Chain(scopes, chain) && chain[|chain| - 1] == w;
    var longer := chain + [x];
    assert Chain(scopes, longer) && longer[|longer| - 1] == x;
  }

  lemma {:induction false} ChainIsReached(scopes: seq<Scope>, reached: set<Work>, chain: seq<Work>)
    requires Closed(scopes, reached) && Chain(scopes, chain)
    ensures chain[|chain| - 1] in reached
  {
    hide HandsOn, Constructed, Handed, Seeds;
    var n := |chain| - 1;
    if n == 0 {
      HandedIsHandsOn(scopes, chain[0], chain[0]);
    } else {
      assert Chain(scopes, chain[..n]);
      ChainIsReached(scopes, reached, chain[..n]);
      assert HandsOn(scopes, chain[n - 1], chain[n]);
      HandedIsHandsOn(scopes, chain[n - 1], chain[n]);
      assert chain[..n][n - 1] in reached;
    }
  }

  /** The least closed set holds exactly the routers that a chain of delegations leads to. */
  lemma ReachedByChain(scopes: seq<Scope>, reached: set<Work>)
    requires LeastClosed(scopes, reached)
    ensures forall w :: w in reached <==> LedTo(scopes, w)
  {
    hide HandsOn, Constructed, Handed, Seeds;
    var led := set w | w in reached && LedTo(scopes, w);
    forall w | w in Seeds(scopes) ensures w in led {
      HandedIsHandsOn(scopes, w, w);
      ChainStart(scopes, w);
    }
    forall w, x | w in led && x in Handed(scopes, w) ensures x in led {
      assert Handed(scopes, w) <= reached;
      HandedIsHandsOn(scopes, w, x);
      ChainStep(scopes, w, x);
    }
    assert Closed(scopes, led);
    forall w | LedTo(scopes, w) ensures w in reached {
      var chain :| Chain(scopes, chain) && chain[|chain| - 1] == w;
      ChainIsReached(scopes, reached, chain);
    }
  }

  ghost predicate LedToWithin(scopes: seq<Scope>, n: nat, w: Work) {
    exists chain :: Chain(scopes, chain) && chain[|chain| - 1] == w && |chain| <= n + 1
  }

  /** The number of delegations is the length of the chain. */
  lemma WithinByChain(scopes: seq<Scope>, n: nat, w: Work)
    ensures w in Within(scopes, n) <==> LedToWithin(scopes, n, w)
  {
    hide Within, HandsOn, Constructed;
    if w in Within(scopes, n) {
      WithinHasChain(scopes, n, w);
    }
    if LedToWithin(scopes, n, w) {
      var chain :| Chain(scopes, chain) && chain[|chain| - 1] == w && |chain| <= n + 1;
      ChainIsWithin(scopes, n, chain);
    }
  }

  lemma LongerChain(scopes: seq<Scope>, n: nat, v: Work, w: Work)
    requires LedToWithin(scopes, n, v) && HandsOn(scopes, v, w)
    ensures LedToWithin(scopes, n + 1, w)
  {
    hide HandsOn, Constructed;
    var chain :| Chain(scopes, chain) && chain[|chain| - 1] == v && |chain| <= n + 1;
    var longer := chain + [w];
    assert Chain(scopes, longer) && longer[|longer| - 1] == w;
  }

  lemma ShortChain(scopes: seq<Scope>, w: Work)
    requires Constructed(scopes, w)
    ensures LedToWithin(scopes, 0, w)
  {
    assert Chain(scopes, [w]);
  }

  lemma {:induction false} WithinHasChain(scopes: seq<Scope>, n: nat, w: Work)
    requires w in Within(scopes, n)
    ensures LedToWithin(scopes, n, w)
    decreases n
  {
    hide HandsOn, Constructed, Handed, Seeds, Chain;
    if n == 0 {
      HandedIsHandsOn(scopes, w, w);
      ShortChain(scopes, w);
    } else if w in Within(scopes, n - 1) {
      WithinHasChain(scopes, n - 1, w);
    } else {
      var v :| v in Within(scopes, n - 1) && w in Handed(scopes, v);
      WithinHasChain(scopes, n - 1, v);
      HandedIsHandsOn(scopes, v, w);
      LongerChain(scopes, n - 1, v, w);
    }
  }

  lemma {:induction false} ChainIsWithin(scopes: seq<Scope>, n: nat, chain: seq<Work>)
    requires Chain(scopes, chain) && |chain| <= n + 1
    ensures chain[|chain| - 1] in Within(scopes, n)
    decreases n
  {
    hide HandsOn, Constructed, Handed, Seeds;
    var k := |chain| - 1;
    HandedIsHandsOn(scopes, chain[k], chain[k]);
    if k == 0 {
      WithinGrows(scopes, 0, n);
    } else {
      assert Chain(scopes, chain[..k]);
      ChainIsWithin(scopes, n - 1, chain[..k]);
      assert HandsOn(scopes, chain[k - 1], chain[k]) && chain[..k][k - 1] == chain[k - 1];
      HandedIsHandsOn(scopes, chain[k - 1], chain[k]);
    }
  }

  /** A path is registered when a chain leads to a router on which a function adds it; the prefix goes in front. */
  ghost predicate RegisteredBy(scopes: seq<Scope>, key: RouteKey, w: Work, r: Registration) {
    && LedTo(scopes, w) && w.scope < |scopes| && r in scopes[w.scope].registrations && r.router == w.router
    && key.path == Display(w.prefix + r.path) && key.methods == r.methods
  }

  lemma RegistersByChain(scopes: seq<Scope>, reached: set<Work>, key: RouteKey)
    requires LeastClosed(scopes, reached)
    ensures Registers(scopes, reached, key) <==> exists w, r :: RegisteredBy(scopes, key, w, r)
  {
    ReachedByChain(scopes, reached);
    hide LeastClosed, LedTo, Display;
    if Registers(scopes, reached, key) {
      var w :| w in reached && RegistersAt(scopes, w, key);
      var r :| r in scopes[w.scope].registrations && r.router == w.router && key == KeyOf(w, r);
      assert RegisteredBy(scopes, key, w, r);
    }
    if w, r :| RegisteredBy(scopes, key, w, r) {
      assert key == KeyOf(w, r) && RegistersAt(scopes, w, key);
    }
  }

  // ------------------------------------------------------------------- display

  /** The display text of a route in parts: parameters by name, converters dropped. */
  function DisplayText(parts: seq<Part>): string {
    if parts == [] then []
    else (match parts[0] case Lit(t) => t case Slot(d, _, _) => "{" + CutAt(':', d) + "}") + DisplayText(parts[1..])
  }

  lemma {:induction false} DisplayConcat(p: seq<Piece>, q: seq<Piece>)
    ensures DisplayPieces(p + q) == DisplayPieces(p) + DisplayPieces(q)
  {
    if p == [] {
      assert p + q == q;
    } else {
      assert (p + q)[1..] == p[1..] + q;
      DisplayConcat(p[1..], q);
    }
  }

  lemma {:induction false} DisplayChars(t: string)
    ensures DisplayPieces(Chars(t)) == t
  {
    if t != [] {
      DisplayChars(t[1..]);
      assert Chars(t)[1..] == Chars(t[1..]);
    }
  }

  /** What a route is displayed as: its path with every converter stripped. */
  lemma {:induction false} DisplayOfRoute(parts: seq<Part>)
    requires forall i | 0 <= i < |parts| :: WellFormedPart(parts[i])
    ensures Display(RouteText(parts)) == DisplayText(parts)
  {
    PiecesOfRoute(parts);
    if parts != [] {
      hide WellFormedPart, RouteText, Pieces;
      PiecesOfRoute(parts[1..]);
      DisplayOfRoute(parts[1..]);
      match parts[0]
      case Lit(t) =>
        DisplayConcat(Chars(t), PartPieces(parts[1..]));
        DisplayChars(t);
      case Slot(d, _, _) =>
        DisplayConcat([Param(d)], PartPieces(parts[1..]));
        assert [Param(d)][1..] == [];
    }
  }

  /** A parameter is displayed by its name, whatever its converter. */
  lemma DisplayOfParameter(name: string, converter: string, rest: string)
    requires NoBraces(name) && NoBraces(converter) && ':' !in name && (converter == "" || converter[0] == ':')
    ensures Display("{" + (name + converter) + "}" + rest) == "{" + name + "}" + Display(rest)
  {
    var decl := name + converter;
    CutAtAbsent(':', name, converter);
    assert NoBraces(decl);
    hide Pieces, NoBraces, CutAt;
    PiecesOfHole(decl, rest);
    DisplayConcat([Param(decl)], Pieces(rest));
    DisplayOfHole(decl);
    hide DisplayPieces;
  }

  /** And everything else as it is. */
  lemma DisplayOfLiteral(text: string, rest: string)
    requires NoBraces(text)
    ensures Display(text + rest) == text + Display(rest)
  {
    hide Pieces, NoBraces, DisplayPieces;
    PiecesOfLiteral(text, rest);
    DisplayConcat(Chars(text), Pieces(rest));
    DisplayChars(text);
  }

  lemma PiecesOfHole(decl: string, post: string)
    requires NoBraces(decl)
    ensures Pieces("{" + decl + "}" + post) == [Param(decl)] + Pieces(post)
  {
    HoleHere(decl, post);
  }

  lemma DisplayOfHole(decl: string)
    ensures DisplayPieces([Param(decl)]) == "{" + CutAt(':', decl) + "}"
  {
    assert [Param(decl)][1..] == [];
    assert DisplayPieces([]) == "";
  }

  // ---------------------------------------------------------- unreachable routes

  /** Some caller candidate matches the route's path. */
  ghost predicate Reaches(candidates: set<string>, raw: string) {
    exists c | c in candidates :: Accepts(Pieces(raw), c)
  }

  /** A display path is unreachable when some route has it and no route that has it is reached. */
  ghost predicate Unreachable(routes: seq<Route>, candidates: set<string>, path: string) {
    && (exists r | r in routes :: Display(r.raw) == path)
    && (forall r | r in routes && Display(r.raw) == path :: !Reaches(candidates, r.raw))
  }

  method CallersReach(candidates: set<string>, raw: string) returns (reached: bool)
    ensures reached <==> Reaches(candidates, raw)
  {
    var pieces := Pieces(raw);
    var todo := candidates;
    while todo != {}
      invariant todo <= candidates
      invariant forall c | c in candidates - todo :: !Accepts(pieces, c)
    {
      var c :| c in todo;
      MatchesIsAccepts(pieces, c);
      if Matches(pieces, c) {
        return true;
      }
      todo := todo - {c};
    }
    return false;
  }

  function PathKey(path: string): Key { Key(path, 0) }

  ghost predicate InOrder(paths: seq<string>) { forall i, j | 0 <= i < j < |paths| :: NotAfter(paths[i], paths[j]) }

  lemma SortedIsInOrder(paths: seq<string>)
    requires Sorted(PathKey, paths)
    ensures InOrder(paths)
  {
    hide StrLeq, NotAfter;
    forall i, j | 0 <= i < j < |paths| ensures NotAfter(paths[i], paths[j]) {
      assert Leq(PathKey(paths[i]), PathKey(paths[j]));
      StrTotal(paths[i], paths[j]);
      StrLeqByFirstDifference(paths[i], paths[j]);
    }
  }

  /** Collect the display paths, mark those a caller matches, and return the rest sorted. */
  method UnreachableRoutes(routes: seq<Route>, candidates: set<string>) returns (paths: seq<string>)
    ensures forall p :: p in paths <==> Unreachable(routes, candidates, p)
    ensures InOrder(paths)
    ensures forall i, j | 0 <= i < j < |paths| :: paths[i] != paths[j]
  {
    hide Display, Reaches;
    var byPath: seq<string> := [];
    var reachable: set<string> := {};
    for k := 0 to |routes|
      invariant forall p :: p in byPath <==> exists i | 0 <= i < k :: Display(routes[i].raw) == p
      invariant forall i, j | 0 <= i < j < |byPath| :: byPath[i] != byPath[j]
      invariant forall p :: p in reachable <==>
        exists i | 0 <= i < k :: Display(routes[i].raw) == p && Reaches(candidates, routes[i].raw)
    {
      var path := Display(routes[k].raw);
      if path !in byPath {
        byPath := byPath + [path];
      }
      var reached := CallersReach(candidates, routes[k].raw);
      if reached {
        reachable := reachable + {path};
      }
    }
    var sorted := Sort(PathKey, byPath);
    SortSorted(PathKey, byPath);
    SortedDistinct(byPath, sorted);
    paths := Leftover(sorted, reachable);
    hide InOrder;
    forall p ensures p in paths <==> Unreachable(routes, candidates, p) {
      assert p in sorted <==> p in byPath;
      assert (exists r | r in routes :: Display(r.raw) == p) <==>
        exists i | 0 <= i < |routes| :: Display(routes[i].raw) == p;
    }
  }

  /** The paths of a sorted list that are not among these, still sorted. */
  method Leftover(sorted: seq<string>, reachable: set<string>) returns (paths: seq<string>)
    requires Sorted(PathKey, sorted) && forall i, j | 0 <= i < j < |sorted| :: sorted[i] != sorted[j]
    ensures forall p :: p in paths <==> p in sorted && p !in reachable
    ensures InOrder(paths)
    ensures forall i, j | 0 <= i < j < |paths| :: paths[i] != paths[j]
  {
    hide Leq;
    paths := [];
    for k := 0 to |sorted|
      invariant forall p :: p in paths <==> p in sorted[..k] && p !in reachable
      invariant Sorted(PathKey, paths)
      invariant forall i, j | 0 <= i < j < |paths| :: paths[i] != paths[j]
      invariant forall p | p in paths :: p in sorted[..k]
    {
      assert sorted[..k + 1] == sorted[..k] + [sorted[k]];
      if sorted[k] !in reachable {
        forall p | p in paths ensures Leq(PathKey(p), PathKey(sorted[k])) && p != sorted[k] {
          var i :| 0 <= i < k && sorted[i] == p;
        }
        paths := paths + [sorted[k]];
      }
    }
    assert sorted[..|sorted|] == sorted;
    SortedIsInOrder(paths);
  }

  lemma SortedDistinct(xs: seq<string>, ys: seq<string>)
    requires multiset(xs) == multiset(ys) && forall i, j | 0 <= i < j < |xs| :: xs[i] != xs[j]
    ensures forall i, j | 0 <= i < j < |ys| :: ys[i] != ys[j]
    ensures forall p :: p in ys <==> p in xs
  {
    forall p ensures p in ys <==> p in xs {
      assert p in multiset(xs) <==> p in xs;
      assert p in multiset(ys) <==> p in ys;
    }
    forall i, j | 0 <= i < j < |ys| ensures ys[i] != ys[j] {
      OnceInDistinct(xs, ys[i]);
      if ys[i] == ys[j] {
        TwiceCounts(ys, i, j);
      }
    }
  }

  lemma {:induction false} OnceInDistinct(xs: seq<string>, x: string)
    requires forall i, j | 0 <= i < j < |xs| :: xs[i] != xs[j]
    ensures multiset(xs)[x] <= 1
  {
    if xs != [] {
      var rest := xs[1..];
      assert xs == [xs[0]] + rest;
      OnceInDistinct(rest, x);
      if xs[0] == x {
        assert x !in rest;
        assert x !in multiset(rest);
      }
    }
  }

  lemma TwiceCounts(ys: seq<string>, i: nat, j: nat)
    requires i < j < |ys| && ys[i] == ys[j]
    ensures multiset(ys)[ys[i]] >= 2
  {
    assert ys == ys[..j] + ys[j..];
    assert ys[i] in ys[..j] && ys[j] in ys[j..];
    assert ys[..j][i] in multiset(ys[..j]) && ys[j..][0] in multiset(ys[j..]);
  }

  /** A route some caller spells, a hole for every parameter, is never listed. */
  lemma SpelledRouteIsNeverListed(
    routes: seq<Route>, candidates: set<string>, route: Route, parts: seq<Part>, query: string)
    requires route in routes && route.raw == RouteText(parts)
    requires forall i | 0 <= i < |parts| :: WellFormedPart(parts[i])
    requires query == [] || query[0] == '?' || query[0] == '#'
    requires var c := CandidateText(parts); StartsAtApiRoot(c) && c[|c| - 1] != '/'
    requires Normalise(CallerText(parts) + query) in candidates
    ensures !Unreachable(routes, candidates, Display(route.raw))
  {
    OwnCallerIsAccepted(parts, query);
  }

  // -------------------------------------------------------------- the whole gate

  /** A display path is listed when some reached router registers it and no caller matches a route kept for it. */
  ghost predicate Listed(
    scopes: seq<Scope>, seen: set<Work>, routes: map<RouteKey, Route>, candidates: set<string>, path: string)
    requires Recorded(scopes, seen, routes)
  {
    && (exists key | Registers(scopes, seen, key) :: key.path == path)
    && (forall key | Registers(scopes, seen, key) && key.path == path :: !Reaches(candidates, routes[key].raw))
  }

  method RoutesOf(routes: map<RouteKey, Route>) returns (list: seq<Route>)
    ensures forall r :: r in list <==> exists key | key in routes :: routes[key] == r
  {
    list := [];
    var todo := routes.Keys;
    while todo != {}
      invariant todo <= routes.Keys
      invariant forall r :: r in list <==> exists key | key in routes.Keys - todo :: routes[key] == r
    {
      var key :| key in todo;
      list := list + [routes[key]];
      todo := todo - {key};
    }
  }

  /** Extraction and verdict together: the listed paths, once each and in order. */
  method Gate(scopes: seq<Scope>, candidates: set<string>)
    returns (paths: seq<string>, ghost routes: map<RouteKey, Route>, ghost seen: set<Work>)
    ensures LeastClosed(scopes, seen) && Recorded(scopes, seen, routes)
    ensures forall p :: p in paths <==> Listed(scopes, seen, routes, candidates, p)
    ensures InOrder(paths)
    ensures forall i, j | 0 <= i < j < |paths| :: paths[i] != paths[j]
  {
    hide LeastClosed, Recorded, Registers, Reaches, Display, InOrder;
    var table, visited := Extract(scopes);
    routes, seen := table, visited;
    var list := RoutesOf(table);
    paths := UnreachableRoutes(list, candidates);
    forall p ensures Unreachable(list, candidates, p) <==> Listed(scopes, seen, routes, candidates, p) {
      ListedIsUnreachable(scopes, seen, routes, list, candidates, p);
    }
  }

  lemma ListedIsUnreachable(
    scopes: seq<Scope>, seen: set<Work>, routes: map<RouteKey, Route>, list: seq<Route>,
    candidates: set<string>, path: string)
    requires Recorded(scopes, seen, routes)
    requires forall r :: r in list <==> exists key | key in routes :: routes[key] == r
    ensures Unreachable(list, candidates, path) <==> Listed(scopes, seen, routes, candidates, path)
  {
    hide Registers, Reaches, Display, Resolved, KeptAt;
    forall key | key in routes ensures routes[key] in list && Display(routes[key].raw) == key.path { }
    if Listed(scopes, seen, routes, candidates, path) {
      var key :| Registers(scopes, seen, key) && key.path == path;
      assert key in routes;
    }
    if Unreachable(list, candidates, path) {
      var r :| r in list && Display(r.raw) == path;
      var key :| key in routes && routes[key] == r;
      assert Registers(scopes, seen, key);
    }
  }

  /** The gate never lists the path of a kept route that some caller spells, a hole for every parameter. */
  lemma SpelledPathIsNotListed(
    scopes: seq<Scope>, seen: set<Work>, routes: map<RouteKey, Route>, candidates: set<string>,
    key: RouteKey, route: Route, parts: seq<Part>, query: string)
    requires Get(routes, key) == Some(route) && route.raw == RouteText(parts)
    requires forall i | 0 <= i < |parts| :: WellFormedPart(parts[i])
    requires query == [] || query[0] == '?' || query[0] == '#'
    requires var c := CandidateText(parts); StartsAtApiRoot(c) && c[|c| - 1] != '/'
    requires Normalise(CallerText(parts) + query) in candidates
    requires Recorded(scopes, seen, routes)
    ensures !Listed(scopes, seen, routes, candidates, key.path)
  {
    assert Registers(scopes, seen, key);
    hide Recorded, Registers, RouteText, CallerText, CandidateText, Normalise, Pieces, Accepts;
    assert Reaches(candidates, RouteText(parts)) by {
      OwnCallerIsAccepted(parts, query);
    }
  }
}
