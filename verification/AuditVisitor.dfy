/**
 * The audit gate: every audit write must sit inside a transaction block of the
 * function it is in.  A visitor with a mutable depth runs once per function.
 */
module AuditVisitor {

  /**
   * A syntax tree, reduced to what the visitor sees.  `opens` counts the items of a
   * with-statement that open a transaction.
   */
  datatype Node =
    | With(opens: nat, items: seq<Node>, body: seq<Node>)
    | Call(audit: bool, conn: bool, line: nat, kids: seq<Node>)
    | Func(name: string, args: seq<Node>, body: seq<Node>, decorators: seq<Node>)
    | Other(kids: seq<Node>)

  datatype Violation = Violation(fn: string, line: nat)

  function Children(n: Node): seq<Node> {
    match n
    case With(_, items, body) => items + body
    case Call(_, _, _, kids) => kids
    case Func(_, args, body, decorators) => args + body + decorators
    case Other(kids) => kids
  }

  /** What one visit at a given depth reports, in order; the items of a with-statement are not visited. */
  function Reported(name: string, n: Node, depth: nat): seq<Violation>
    decreases n, 1
  {
    match n
    case With(opens, _, body) => ReportedAll(name, body, depth + opens)
    case Call(audit, conn, line, kids) =>
      (if audit && depth == 0 && !conn then [Violation(name, line)] else []) + ReportedAll(name, kids, depth)
    case Func(_, args, body, decorators) =>
      ReportedAll(name, args, depth) + ReportedAll(name, body, depth) + ReportedAll(name, decorators, depth)
    case Other(kids) => ReportedAll(name, kids, depth)
  }

  function ReportedAll(name: string, ns: seq<Node>, depth: nat): seq<Violation>
    decreases ns, 0
  {
    if ns == [] then [] else Reported(name, ns[0], depth) + ReportedAll(name, ns[1..], depth)
  }

  function Size(n: Node): nat
    decreases n, 1
  {
    match n
    case With(_, items, body) => 1 + SizeAll(items) + SizeAll(body)
    case Call(_, _, _, kids) => 1 + SizeAll(kids)
    case Func(_, args, body, decorators) => 1 + SizeAll(args) + SizeAll(body) + SizeAll(decorators)
    case Other(kids) => 1 + SizeAll(kids)
  }

  function SizeAll(ns: seq<Node>): nat
    decreases ns, 0
  {
    if ns == [] then 0 else Size(ns[0]) + SizeAll(ns[1..])
  }

  lemma {:induction false} SizeConcat(a: seq<Node>, b: seq<Node>)
    ensures SizeAll(a + b) == SizeAll(a) + SizeAll(b)
  {
    if a == [] {
      assert a + b == b;
    } else {
      assert (a + b)[1..] == a[1..] + b;
      SizeConcat(a[1..], b);
    }
  }

  lemma WalkShrinks(queue: seq<Node>)
    requires queue != []
    ensures SizeAll(queue[1..] + Children(queue[0])) < SizeAll(queue)
  {
    SizeConcat(queue[1..], Children(queue[0]));
    match queue[0]
    case With(_, items, body) => SizeConcat(items, body);
    case Call(_, _, _, _) =>
    case Func(_, args, body, decorators) =>
      SizeConcat(args, body);
      SizeConcat(args + body, decorators);
    case Other(_) =>
  }

  /** `ast.walk`: every node, breadth first. */
  function Walk(queue: seq<Node>): seq<Node>
    decreases SizeAll(queue)
  {
    if queue == [] then []
    else
      WalkShrinks(queue);
      [queue[0]] + Walk(queue[1..] + Children(queue[0]))
  }

  /** What a file reports: one checker per function, in walk order. */
  function FileReport(nodes: seq<Node>): seq<Violation> {
    if nodes == [] then []
    else if nodes[0].Func? then ReportedAll(nodes[0].name, nodes[0].body, 0) + FileReport(nodes[1..])
    else FileReport(nodes[1..])
  }

  // --------------------------------------------------------------------- places

  /** One step down the tree: into a body (or any other visited child), or into an item or header. */
  datatype Step = Step(node: Node, child: Node, inBody: bool) {
    predicate Valid() {
      match node
      case With(_, items, body) => if inBody then child in body else child in items
      case Func(_, args, body, decorators) => if inBody then child in body else child in args || child in decorators
      case Call(_, _, _, kids) => inBody && child in kids
      case Other(kids) => inBody && child in kids
    }

    /** The step enters a function's body, which starts that function's own check. */
    predicate EntersFunction() { node.Func? && inBody }

    predicate EntersItem() { node.With? && !inBody }

    predicate EntersTransaction() { node.With? && inBody && node.opens > 0 }
  }

  /** A way down from one node to another. */
  predicate IsPath(top: Node, path: seq<Step>, bottom: Node)
    decreases path
  {
    if path == [] then top == bottom
    else path[0].node == top && path[0].Valid() && IsPath(path[0].child, path[1..], bottom)
  }

  predicate IsUnguarded(n: Node) { n.Call? && n.audit && !n.conn }

  /** No with-item and no transaction block on the way. */
  predicate Open(path: seq<Step>) {
    forall i | 0 <= i < |path| :: !path[i].EntersItem() && !path[i].EntersTransaction()
  }

  /** From the innermost function whose body is entered, the way is open. */
  predicate Exposed(path: seq<Step>) {
    exists k | 0 <= k < |path| ::
      && path[k].EntersFunction() && Open(path[k + 1..])
      && forall i | k < i < |path| :: !path[i].EntersFunction()
  }

  lemma {:induction false} PathConcat(top: Node, p: seq<Step>, mid: Node, q: seq<Step>, bottom: Node)
    requires IsPath(top, p, mid) && IsPath(mid, q, bottom)
    ensures IsPath(top, p + q, bottom)
    decreases p
  {
    if p == [] {
      assert p + q == q;
    } else {
      assert (p + q)[1..] == p[1..] + q;
      PathConcat(p[0].child, p[1..], mid, q, bottom);
    }
  }

  lemma {:induction false} PathSplit(top: Node, path: seq<Step>, bottom: Node, k: nat)
    requires IsPath(top, path, bottom) && k < |path|
    ensures IsPath(top, path[..k], path[k].node) && path[k].Valid() && IsPath(path[k].child, path[k + 1..], bottom)
    decreases path
  {
    if k > 0 {
      PathSplit(path[0].child, path[1..], bottom, k - 1);
      assert path[..k][1..] == path[1..][..k - 1] && path[1..][k..] == path[k + 1..];
    }
  }

  // ----------------------------------------------------------- what a visit reports

  /** An unguarded audit write on this line. */
  predicate WritesAt(n: Node, line: nat) { IsUnguarded(n) && n.line == line }

  /** Somewhere below n, along an open way, sits such a write. */
  ghost predicate HasOpenWrite(n: Node, line: nat) {
    exists path, m :: IsPath(n, path, m) && Open(path) && WritesAt(m, line)
  }

  /** The children a visit goes into. */
  function Visited(n: Node): seq<Node> { if n.With? then n.body else Children(n) }

  lemma OpenWriteStep(n: Node, line: nat)
    ensures HasOpenWrite(n, line) <==>
      WritesAt(n, line) || (!(n.With? && n.opens > 0) && exists c | c in Visited(n) :: HasOpenWrite(c, line))
  {
    hide WritesAt;
    if HasOpenWrite(n, line) {
      var path: seq<Step>, m: Node :| IsPath(n, path, m) && Open(path) && WritesAt(m, line);
      if path != [] {
        var s, rest := path[0], path[1..];
        assert !s.EntersItem() && !s.EntersTransaction();
        assert Open(rest) by {
          forall i | 0 <= i < |rest| ensures !rest[i].EntersItem() && !rest[i].EntersTransaction() {
            assert rest[i] == path[i + 1];
          }
        }
        assert HasOpenWrite(s.child, line) && s.child in Visited(n);
      }
    }
    if WritesAt(n, line) {
      assert IsPath(n, [], n);
    }
    if !(n.With? && n.opens > 0) && exists c | c in Visited(n) :: HasOpenWrite(c, line) {
      var c :| c in Visited(n) && HasOpenWrite(c, line);
      var rest, m :| IsPath(c, rest, m) && Open(rest) && WritesAt(m, line);
      var s := Step(n, c, if n.Func? then c in n.body else true);
      assert ([s] + rest)[1..] == rest;
      assert IsPath(n, [s] + rest, m) && Open([s] + rest);
    }
  }

  /** A visit at depth 0 reports a line exactly when an open way leads to an unguarded write on it. */
  lemma {:induction false} VisitReportsOpenWrites(name: string, n: Node, depth: nat, v: Violation)
    ensures v in Reported(name, n, depth) <==> depth == 0 && v.fn == name && HasOpenWrite(n, v.line)
    decreases n, 1
  {
    hide HasOpenWrite;
    OpenWriteStep(n, v.line);
    match n
    case With(opens, _, body) => VisitAllReportsOpenWrites(name, body, depth + opens, v);
    case Call(_, _, _, kids) => VisitAllReportsOpenWrites(name, kids, depth, v);
    case Func(_, args, body, decorators) =>
      VisitAllReportsOpenWrites(name, args, depth, v);
      VisitAllReportsOpenWrites(name, body, depth, v);
      VisitAllReportsOpenWrites(name, decorators, depth, v);
    case Other(kids) => VisitAllReportsOpenWrites(name, kids, depth, v);
  }

  lemma {:induction false} VisitAllReportsOpenWrites(name: string, ns: seq<Node>, depth: nat, v: Violation)
    ensures v in ReportedAll(name, ns, depth) <==>
      depth == 0 && v.fn == name && exists c | c in ns :: HasOpenWrite(c, v.line)
    decreases ns, 0
  {
    hide HasOpenWrite;
    if ns != [] {
      VisitReportsOpenWrites(name, ns[0], depth, v);
      VisitAllReportsOpenWrites(name, ns[1..], depth, v);
      assert ns == [ns[0]] + ns[1..];
    }
  }

  // ------------------------------------------------------------ what a walk reaches

  ghost predicate Below(top: Node, n: Node) { exists path :: IsPath(top, path, n) }

  lemma BelowStep(top: Node, n: Node)
    ensures Below(top, n) <==> top == n || exists c | c in Children(top) :: Below(c, n)
  {
    if Below(top, n) {
      var path: seq<Step> :| IsPath(top, path, n);
      if path != [] {
        assert IsPath(path[0].child, path[1..], n);
        assert path[0].child in Children(top) && Below(path[0].child, n);
      }
    }
    if top == n {
      assert IsPath(top, [], n);
    }
    if c :| c in Children(top) && Below(c, n) {
      var rest :| IsPath(c, rest, n);
      var s := Step(top, c, match top
                            case With(_, _, body) => c in body
                            case Func(_, _, body, _) => c in body
                            case _ => true);
      assert ([s] + rest)[1..] == rest;
      assert IsPath(top, [s] + rest, n);
    }
  }

  lemma {:induction false} WalkReaches(queue: seq<Node>, n: Node)
    ensures n in Walk(queue) <==> exists q | q in queue :: Below(q, n)
    decreases SizeAll(queue)
  {
    hide Below, Children;
    if queue != [] {
      var top, rest := queue[0], queue[1..];
      assert queue == [top] + rest;
      WalkShrinks(queue);
      WalkReaches(rest + Children(top), n);
      BelowStep(top, n);
    }
  }

  lemma {:induction false} ReportHolds(nodes: seq<Node>, v: Violation)
    ensures v in FileReport(nodes) <==> exists f | f in nodes && f.Func? :: v in ReportedAll(f.name, f.body, 0)
  {
    hide ReportedAll;
    if nodes != [] {
      ReportHolds(nodes[1..], v);
      assert nodes == [nodes[0]] + nodes[1..];
    }
  }

  /** A function of the file, of this name, whose body holds such a write along an open way. */
  ghost predicate LeavesOpen(tree: Node, f: Node, v: Violation) {
    Below(tree, f) && f.Func? && f.name == v.fn && exists c | c in f.body :: HasOpenWrite(c, v.line)
  }

  /** The report of a file, line by line. */
  lemma ReportsExactly(tree: Node, v: Violation)
    ensures v in FileReport(Walk([tree])) <==> exists f :: LeavesOpen(tree, f, v)
  {
    hide Walk, Reported, ReportedAll, FileReport, HasOpenWrite, Below;
    var nodes := Walk([tree]);
    ReportHolds(nodes, v);
    if f :| f in nodes && f.Func? && v in ReportedAll(f.name, f.body, 0) {
      WalkReaches([tree], f);
      VisitAllReportsOpenWrites(f.name, f.body, 0, v);
      assert LeavesOpen(tree, f, v);
    }
    if f :| LeavesOpen(tree, f, v) {
      WalkReaches([tree], f);
      VisitAllReportsOpenWrites(f.name, f.body, 0, v);
    }
  }

  // -------------------------------------------------------------------- the theorem

  /** On an open way below a function, some innermost function leaves the write exposed. */
  lemma {:induction false} OpenIsExposed(path: seq<Step>, k: nat)
    requires k < |path| && path[k].EntersFunction() && Open(path[k + 1..])
    ensures Exposed(path)
    decreases |path| - k
  {
    if i :| k < i < |path| && path[i].EntersFunction() {
      var tail, rest := path[k + 1..], path[i + 1..];
      forall j | 0 <= j < |rest| ensures !rest[j].EntersItem() && !rest[j].EntersTransaction() {
        assert rest[j] == tail[j + i - k];
      }
      OpenIsExposed(path, i);
    }
  }

  /** Some unguarded audit write of the file is exposed. */
  ghost predicate HasExposedWrite(tree: Node) {
    exists path, m :: IsPath(tree, path, m) && Exposed(path) && IsUnguarded(m)
  }

  /**
   * A file is accepted exactly when every unguarded audit write outside with-items has
   * a transaction block between it and the innermost function whose body holds it.
   */
  lemma AcceptedIffCovered(tree: Node)
    ensures FileReport(Walk([tree])) == [] <==> !HasExposedWrite(tree)
  {
    hide Walk, FileReport, IsUnguarded;
    var report := FileReport(Walk([tree]));
    if HasExposedWrite(tree) {
      var path: seq<Step>, m: Node :| IsPath(tree, path, m) && Exposed(path) && IsUnguarded(m);
      var k :| 0 <= k < |path| && path[k].EntersFunction() && Open(path[k + 1..]);
      PathSplit(tree, path, m, k);
      var f := path[k].node;
      UnguardedIsCall(m);
      assert WritesAt(m, m.line) && HasOpenWrite(path[k].child, m.line);
      assert Below(tree, f) && LeavesOpen(tree, f, Violation(f.name, m.line));
      ReportsExactly(tree, Violation(f.name, m.line));
    }
    if report != [] {
      var v := report[0];
      ReportsExactly(tree, v);
      var f :| LeavesOpen(tree, f, v);
      var p :| IsPath(tree, p, f);
      var c :| c in f.body && HasOpenWrite(c, v.line);
      var q, m :| IsPath(c, q, m) && Open(q) && WritesAt(m, v.line);
      WriteIsExposed(tree, p, f, c, q, m);
    }
  }

  lemma UnguardedIsCall(m: Node)
    requires IsUnguarded(m)
    ensures m.Call?
  {
  }

  lemma WriteIsExposed(tree: Node, p: seq<Step>, f: Node, c: Node, q: seq<Step>, m: Node)
    requires IsPath(tree, p, f) && f.Func? && c in f.body && IsPath(c, q, m) && Open(q) && IsUnguarded(m)
    ensures HasExposedWrite(tree)
  {
    var s := Step(f, c, true);
    var below := [s] + q;
    assert below[1..] == q;
    assert IsPath(f, below, m);
    PathConcat(tree, p, f, below, m);
    var path := p + below;
    assert path[|p|] == s && path[|p| + 1..] == q;
    OpenIsExposed(path, |p|);
  }

  /** A helper defined inside a transaction inherits no cover from it. */
  lemma NestedHelperIsNotCovered(outer: string, helper: string, opens: nat, line: nat)
    ensures var write := Call(true, false, line, []);
      FileReport(Walk([Func(outer, [], [With(opens, [], [Func(helper, [], [write], [])])], [])])) != []
  {
    var write := Call(true, false, line, []);
    var inner := Func(helper, [], [write], []);
    var block := With(opens, [], [inner]);
    var tree := Func(outer, [], [block], []);
    var path := [Step(tree, block, true), Step(block, inner, true), Step(inner, write, true)];
    assert path[1..][1..] == [path[2]] && path[2..][1..] == [] && path[1..] == [path[1], path[2]];
    assert write in inner.body && inner in block.body && block in tree.body;
    assert IsPath(inner, [path[2]], write);
    assert IsPath(block, [path[1], path[2]], write) by { assert [path[1], path[2]][1..] == [path[2]]; }
    assert IsPath(tree, path, write);
    assert path[2].EntersFunction() && Open(path[3..]);
    OpenIsExposed(path, 2);
    AcceptedIffCovered(tree);
  }

  /** The smallest file: one function, one write.  It is reported unless it passes its connection on. */
  lemma OneWrite(fn: string, conn: bool, line: nat)
    ensures FileReport(Walk([Func(fn, [], [Call(true, conn, line, [])], [])])) ==
      if conn then [] else [Violation(fn, line)]
  {
    var write := Call(true, conn, line, []);
    var tree := Func(fn, [], [write], []);
    assert [tree][1..] == [] && [write][1..] == [];
    assert [] + Children(tree) == [write] && [] + Children(write) == [];
    assert Walk([write]) == [write] + Walk([]);
    assert Walk([tree]) == [tree] + Walk([write]) == [tree, write];
    assert [tree, write][1..] == [write];
    assert ReportedAll(fn, [write], 0) == Reported(fn, write, 0) + ReportedAll(fn, [], 0);
    assert FileReport([write]) == FileReport([]) == [];
  }

  // ----------------------------------------------------------- the code itself

  /** Walks one function's body, tracking how many transaction blocks it is inside. */
  class FunctionAuditChecker {
    const name: string
    var txnDepth: nat
    var violations: seq<Violation>

    constructor (name: string)
      ensures this.name == name && txnDepth == 0 && violations == []
    {
      this.name := name;
      txnDepth := 0;
      violations := [];
    }

    /** Every visit leaves the depth as it found it. */
    method Visit(n: Node)
      modifies this
      ensures txnDepth == old(txnDepth)
      ensures violations == old(violations) + Reported(name, n, old(txnDepth))
      decreases n, 1
    {
      match n
      case With(opens, _, body) =>
        txnDepth := txnDepth + opens;
        VisitAll(body);
        txnDepth := txnDepth - opens;
      case Call(audit, conn, line, kids) =>
        if audit && txnDepth == 0 && !conn {
          violations := violations + [Violation(name, line)];
        }
        VisitAll(kids);
      case Func(_, args, body, decorators) =>
        VisitAll(args);
        VisitAll(body);
        VisitAll(decorators);
      case Other(kids) =>
        VisitAll(kids);
    }

    method VisitAll(ns: seq<Node>)
      modifies this
      ensures txnDepth == old(txnDepth)
      ensures violations == old(violations) + ReportedAll(name, ns, old(txnDepth))
      decreases ns, 0
    {
      for i := 0 to |ns|
        invariant txnDepth == old(txnDepth)
        invariant old(violations) + ReportedAll(name, ns, txnDepth) == violations + ReportedAll(name, ns[i..], txnDepth)
      {
        assert ns[i..][1..] == ns[i + 1..];
        Visit(ns[i]);
      }
    }
  }

  method CheckFile(tree: Node) returns (violations: seq<Violation>)
    ensures violations == FileReport(Walk([tree]))
    ensures violations == [] <==> !HasExposedWrite(tree)
    ensures forall v :: v in violations <==> exists f :: LeavesOpen(tree, f, v)
  {
    violations := [];
    var todo := [tree];
    while todo != []
      invariant FileReport(Walk([tree])) == violations + FileReport(Walk(todo))
      decreases SizeAll(todo)
    {
      hide Reported, ReportedAll, Size;
      var node := todo[0];
      WalkShrinks(todo);
      assert Walk(todo)[1..] == Walk(todo[1..] + Children(node));
      todo := todo[1..] + Children(node);
      if node.Func? {
        var checker := new FunctionAuditChecker(node.name);
        checker.VisitAll(node.body);
        violations := violations + checker.violations;
      }
    }
    hide LeavesOpen, HasExposedWrite, FileReport, Walk;
    AcceptedIffCovered(tree);
    forall v { ReportsExactly(tree, v); }
  }
}
