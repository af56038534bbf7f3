/**
 * The phase runner of the desktop journeys: boots, each with an environment, a
 * setup and a teardown, any of which may fail, share one table of phase outcomes
 * and one exit code.
 */
module Journey {
  import opened Text

  type Env = map<string, string>

  /** How a callback ended: normally, with one of the two declared exceptions, or with any other. */
  datatype Ending = Returned | RaisedSkip | RaisedBlock | RaisedOther

  /** A callback of the script: how it ends and what it does to the environment. */
  datatype Callback = Callback(ending: Ending, effect: Env -> Env)

  datatype Phase = Phase(id: string, run: Callback)

  datatype Boot = Boot(
    name: string,
    phases: seq<Phase>,
    factory: Callback,
    enter: Callback,
    setup: Option<Callback>,
    leave: Callback,
    overrides: Env,
    clear: set<string>)

  datatype Outcome = Passed | Failed | Blocked | Skipped

  datatype PhaseResult = PhaseResult(boot: string, phaseId: string, outcome: Outcome)

  const EXIT_BLOCKED := 2
  const EXIT_SKIPPED := 3

  // ------------------------------------------------------------------- verdicts

  function Canon(id: string): string { Lower(Strip(id)) }

  /** The phases a pinned run keeps; every phase when nothing is pinned. */
  function Kept(selected: Option<set<string>>, phases: seq<Phase>): seq<Phase> {
    if selected.None? then phases
    else if phases == [] then []
    else if Canon(phases[0].id) in selected.value then [phases[0]] + Kept(selected, phases[1..])
    else Kept(selected, phases[1..])
  }

  function PhaseOutcome(e: Ending): Outcome {
    match e
    case Returned => Passed
    case RaisedSkip => Skipped
    case RaisedBlock => Blocked
    case RaisedOther => Failed
  }

  /** What becomes of the whole group when factory, entry or setup raises; None when they all return. */
  function GroupOutcome(boot: Boot): Option<Outcome> {
    if boot.factory.ending != Returned || boot.enter.ending != Returned then Some(Failed)
    else if boot.setup.None? || boot.setup.value.ending == Returned then None
    else if boot.setup.value.ending == RaisedSkip then Some(Skipped)
    else Some(Failed)
  }

  /** The outcome a selected phase deserves. */
  function Verdict(boot: Boot, phase: Phase): Outcome {
    match GroupOutcome(boot) case Some(o) => o case None => PhaseOutcome(phase.run.ending)
  }

  function Verdicts(boot: Boot, phases: seq<Phase>): seq<PhaseResult> {
    seq(|phases|, i requires 0 <= i < |phases| => PhaseResult(boot.name, phases[i].id, Verdict(boot, phases[i])))
  }

  predicate IsRecorded(results: seq<PhaseResult>, name: string, id: string) {
    exists r | r in results :: r.boot == name && r.phaseId == id
  }

  /** Marking a group: phases already in the table keep their outcome. */
  function Marked(prior: seq<PhaseResult>, name: string, phases: seq<Phase>, outcome: Outcome): seq<PhaseResult> {
    if phases == [] then []
    else
      var rest := Marked(prior, name, phases[1..], outcome);
      if IsRecorded(prior, name, phases[0].id) then rest else [PhaseResult(name, phases[0].id, outcome)] + rest
  }

  lemma MarkedStep(prior: seq<PhaseResult>, name: string, phases: seq<Phase>, i: nat, outcome: Outcome)
    requires i < |phases|
    ensures var rest := Marked(prior, name, phases[i + 1..], outcome);
      Marked(prior, name, phases[i..], outcome) ==
      if IsRecorded(prior, name, phases[i].id) then rest else [PhaseResult(name, phases[i].id, outcome)] + rest
  {
    assert phases[i..][1..] == phases[i + 1..];
  }

  lemma OneMore(done: seq<PhaseResult>, r: PhaseResult, rest: seq<PhaseResult>)
    ensures done + ([r] + rest) == (done + [r]) + rest
  {
  }

  lemma NothingMarked(prior: seq<PhaseResult>, name: string, outcome: Outcome)
    ensures Marked(prior, name, [], outcome) == []
  {
  }

  /** What one boot adds to the table. */
  function Recorded(prior: seq<PhaseResult>, boot: Boot, phases: seq<Phase>): seq<PhaseResult> {
    match GroupOutcome(boot)
    case Some(o) => Marked(prior, boot.name, phases, o)
    case None => Verdicts(boot, phases)
  }

  lemma {:induction false} MarkedAll(prior: seq<PhaseResult>, boot: Boot, phases: seq<Phase>, outcome: Outcome)
    requires GroupOutcome(boot) == Some(outcome)
    ensures |Marked(prior, boot.name, phases, outcome)| <= |phases|
    ensures Marked(prior, boot.name, phases, outcome) == Verdicts(boot, phases) <==>
      forall p | p in phases :: !IsRecorded(prior, boot.name, p.id)
    ensures |Marked(prior, boot.name, phases, outcome)| == |phases| ==>
      forall p | p in phases :: !IsRecorded(prior, boot.name, p.id)
  {
    if phases != [] {
      MarkedAll(prior, boot, phases[1..], outcome);
      hide IsRecorded;
      assert phases == [phases[0]] + phases[1..];
      assert Verdicts(boot, phases) == [Verdicts(boot, phases)[0]] + Verdicts(boot, phases[1..]);
    }
  }

  /**
   * Every selected phase gets exactly one outcome, the one it deserves, in order --
   * exactly when the phases ran, or none of them was in the table under this boot name.
   */
  lemma OneOutcomeEach(prior: seq<PhaseResult>, boot: Boot, phases: seq<Phase>)
    ensures Recorded(prior, boot, phases) == Verdicts(boot, phases) <==>
      (GroupOutcome(boot).None? || forall p | p in phases :: !IsRecorded(prior, boot.name, p.id))
  {
    if GroupOutcome(boot).Some? {
      MarkedAll(prior, boot, phases, GroupOutcome(boot).value);
    }
  }

  /** A second marking of a group finds nothing left to mark. */
  lemma {:induction false} MarkedTwice(results: seq<PhaseResult>, name: string, phases: seq<Phase>, outcome: Outcome)
    requires forall p | p in phases :: IsRecorded(results, name, p.id)
    ensures Marked(results, name, phases, outcome) == []
    decreases phases
  {
    if phases != [] {
      assert phases[0] in phases;
      MarkedTwice(results, name, phases[1..], outcome);
    }
  }

  lemma {:induction false} MarkedRecords(prior: seq<PhaseResult>, name: string, phases: seq<Phase>, outcome: Outcome)
    ensures forall p | p in phases :: IsRecorded(prior + Marked(prior, name, phases, outcome), name, p.id)
    decreases phases
  {
    if phases != [] {
      var rest := phases[1..];
      MarkedRecords(prior, name, rest, outcome);
      var after, all := prior + Marked(prior, name, rest, outcome), prior + Marked(prior, name, phases, outcome);
      assert forall r | r in after :: r in all;
      assert phases == [phases[0]] + rest;
      if !IsRecorded(prior, name, phases[0].id) {
        assert all[|prior|] == PhaseResult(name, phases[0].id, outcome) && all[|prior|] in all;
      } else {
        var r :| r in prior && r.boot == name && r.phaseId == phases[0].id;
        assert r in all;
      }
    }
  }

  lemma VerdictsRecord(prior: seq<PhaseResult>, boot: Boot, phases: seq<Phase>)
    ensures forall p | p in phases :: IsRecorded(prior + Verdicts(boot, phases), boot.name, p.id)
  {
    var all := prior + Verdicts(boot, phases);
    forall p | p in phases ensures IsRecorded(all, boot.name, p.id) {
      var i :| 0 <= i < |phases| && phases[i] == p;
      assert all[|prior| + i].boot == boot.name && all[|prior| + i] in all;
    }
  }

  // ---------------------------------------------------------------- environment

  function Get(env: Env, name: string): Option<string> { if name in env then Some(env[name]) else None }

  function Managed(boot: Boot): set<string> { boot.overrides.Keys + boot.clear }

  /** What the boot's callbacks leave behind, run in order until one raises. */
  function BodyEnv(boot: Boot, phases: seq<Phase>, env: Env): Env {
    var made := boot.factory.effect(env);
    if boot.factory.ending != Returned then made
    else
      var entered := boot.enter.effect(made);
      if boot.enter.ending != Returned then entered
      else
        var ready := match boot.setup case Some(c) => c.effect(entered) case None => entered;
        var worked := if GroupOutcome(boot).None? then PhasesEnv(phases, ready) else ready;
        boot.leave.effect(worked)
  }

  function PhasesEnv(phases: seq<Phase>, env: Env): Env
    decreases phases
  {
    if phases == [] then env else PhasesEnv(phases[1..], phases[0].run.effect(env))
  }

  /** The managed names put back, everything else as it was left. */
  function Restored(before: Env, names: set<string>, after: Env): Env {
    (after - names) + (map n | n in names && n in before :: before[n])
  }

  /** The environment in which a boot's callbacks start. */
  function Scoped(boot: Boot, env: Env): Env { (env - boot.clear) + boot.overrides }

  /** An override counts even for a cleared name; everything unmanaged is as it was. */
  lemma ScopedByName(boot: Boot, env: Env, n: string)
    ensures Get(Scoped(boot, env), n) ==
      if n in boot.overrides then Some(boot.overrides[n]) else if n in boot.clear then None else Get(env, n)
  {
  }

  /** Afterwards overridden and cleared names are as they were before, all others as the callbacks left them. */
  lemma RestoredByName(boot: Boot, before: Env, after: Env, n: string)
    ensures Get(Restored(before, Managed(boot), after), n) ==
      Get(if n in boot.overrides || n in boot.clear then before else after, n)
  {
  }

  /** The callbacks a boot makes, by endings: each step only after those before it returned, teardown once entered. */
  function Calls(boot: Boot, phases: seq<Phase>): seq<Callback> {
    [boot.factory]
    + (if boot.factory.ending == Returned then [boot.enter] else [])
    + (if CameUp(boot) && boot.setup.Some? then [boot.setup.value] else [])
    + (if Ran(boot) then seq(|phases|, i requires 0 <= i < |phases| => phases[i].run) else [])
    + (if CameUp(boot) then [boot.leave] else [])
  }

  function EnvAfter(calls: seq<Callback>, env: Env): Env
    decreases calls
  {
    if calls == [] then env else EnvAfter(calls[1..], calls[0].effect(env))
  }

  lemma {:induction false} EnvAfterConcat(a: seq<Callback>, b: seq<Callback>, env: Env)
    ensures EnvAfter(a + b, env) == EnvAfter(b, EnvAfter(a, env))
    decreases a
  {
    if a == [] {
      assert a + b == b;
    } else {
      assert (a + b)[1..] == a[1..] + b;
      EnvAfterConcat(a[1..], b, a[0].effect(env));
    }
  }

  lemma EnvAfterOne(c: Callback, env: Env)
    ensures EnvAfter([c], env) == c.effect(env)
  {
    assert [c][1..] == [];
  }

  lemma {:induction false} PhasesAreCalls(phases: seq<Phase>, env: Env)
    ensures PhasesEnv(phases, env) == EnvAfter(seq(|phases|, i requires 0 <= i < |phases| => phases[i].run), env)
    decreases phases
  {
    if phases != [] {
      PhasesAreCalls(phases[1..], phases[0].run.effect(env));
      var calls := seq(|phases|, i requires 0 <= i < |phases| => phases[i].run);
      assert calls[1..] == seq(|phases[1..]|, i requires 0 <= i < |phases[1..]| => phases[1..][i].run);
    }
  }

  /** What a boot leaves behind is what exactly those callbacks do, in that order. */
  lemma BodyIsCalls(boot: Boot, phases: seq<Phase>, env: Env)
    ensures BodyEnv(boot, phases, env) == EnvAfter(Calls(boot, phases), env)
  {
    var a := [boot.factory];
    var b := if boot.factory.ending == Returned then [boot.enter] else [];
    var c := if CameUp(boot) && boot.setup.Some? then [boot.setup.value] else [];
    var d := if Ran(boot) then seq(|phases|, i requires 0 <= i < |phases| => phases[i].run) else [];
    var e := if CameUp(boot) then [boot.leave] else [];
    var made := EnvAfter(a, env);
    var entered := EnvAfter(b, made);
    var ready := EnvAfter(c, entered);
    EnvAfterConcat(a + b + c + d, e, env);
    EnvAfterConcat(a + b + c, d, env);
    EnvAfterConcat(a + b, c, env);
    EnvAfterConcat(a, b, env);
    EnvAfterOne(boot.factory, env);
    EnvAfterOne(boot.enter, made);
    if boot.setup.Some? {
      EnvAfterOne(boot.setup.value, entered);
    }
    PhasesAreCalls(phases, ready);
    EnvAfterOne(boot.leave, EnvAfter(d, ready));
  }

  // -------------------------------------------------------------------- selection

  /** A pin is compared without the padding of the phase id and in small letters. */
  lemma CanonByText(v: string, id: string, w: string, i: nat)
    requires AllSpace(v) && AllSpace(w) && i < |id| && !IsSpace(id[0]) && !IsSpace(id[|id| - 1])
    ensures |Canon(v + id + w)| == |id|
    ensures if id[i] in "ABCDEFGHIJKLMNOPQRSTUVWXYZ"
      then Canon(v + id + w)[i] as int - 'a' as int == id[i] as int - 'A' as int
      else Canon(v + id + w)[i] == id[i]
  {
    StripOfPadded(v, id, w);
    LowerByLetter(id, i);
    hide Strip, Lower;
  }

  lemma Regrouped<T>(a: seq<T>, b: seq<T>, c: seq<T>, d: seq<T>)
    ensures a + (b + c + d) == a + b + c + d
  {
  }

  /** Selection goes phase by phase and keeps their order. */
  lemma {:induction false} KeptInOrder(selected: Option<set<string>>, a: seq<Phase>, p: Phase, b: seq<Phase>)
    ensures Kept(selected, a + [p] + b) ==
      Kept(selected, a) + (if selected.None? || Canon(p.id) in selected.value then [p] else []) + Kept(selected, b)
  {
    hide Canon;
    var all, keeps := a + [p] + b, selected.None? || Canon(p.id) in selected.value;
    if a == [] {
      assert all[0] == p && all[1..] == b;
      assert Kept(selected, all) == (if keeps then [p] else []) + Kept(selected, b);
    } else {
      assert all[0] == a[0] && all[1..] == a[1..] + [p] + b;
      KeptInOrder(selected, a[1..], p, b);
      Regrouped([a[0]], Kept(selected, a[1..]), if keeps then [p] else [], Kept(selected, b));
    }
  }

  // ------------------------------------------------------------------ whole runs

  /** The table after a series of boots. */
  function Table(selected: Option<set<string>>, boots: seq<Boot>): seq<PhaseResult> {
    if boots == [] then []
    else
      var prior, last := Table(selected, boots[..|boots| - 1]), boots[|boots| - 1];
      prior + Recorded(prior, last, Kept(selected, last.phases))
  }

  ghost function Matched(selected: Option<set<string>>, boots: seq<Boot>): set<string> {
    if selected.None? then {}
    else set b, p | b in boots && p in Kept(selected, b.phases) :: Canon(p.id)
  }

  function ExitCode(selected: Option<set<string>>, matched: set<string>, results: seq<PhaseResult>): int {
    if selected.Some? && selected.value - matched != {} then 1
    else if results == [] then EXIT_SKIPPED
    else if exists r | r in results :: r.outcome == Failed then 1
    else if exists r | r in results :: r.outcome == Blocked then EXIT_BLOCKED
    else if exists r | r in results :: r.outcome == Skipped then EXIT_SKIPPED
    else 0
  }

  predicate IsSelected(selected: Option<set<string>>, p: Phase) {
    selected.None? || Canon(p.id) in selected.value
  }

  lemma {:induction false} KeptIsSelected(selected: Option<set<string>>, phases: seq<Phase>)
    ensures forall p :: p in Kept(selected, phases) <==> p in phases && IsSelected(selected, p)
  {
    hide Canon;
    if selected.Some? && phases != [] {
      KeptIsSelected(selected, phases[1..]);
      assert phases == [phases[0]] + phases[1..];
    }
  }

  /** One of the boots has a selected phase of this id under this label. */
  ghost predicate Offered(selected: Option<set<string>>, boots: seq<Boot>, name: string, id: string) {
    exists b, p | b in boots && p in b.phases :: b.name == name && p.id == id && IsSelected(selected, p)
  }

  /** An earlier boot has a selected phase of p's id under the same label, and p's boot marks its phases as a group. */
  ghost predicate Hidden(selected: Option<set<string>>, boots: seq<Boot>, i: nat, p: Phase)
    requires i < |boots|
  {
    GroupOutcome(boots[i]).Some? && Offered(selected, boots[..i], boots[i].name, p.id)
  }

  /** Boot i has the selected phase p, its verdict is o, and nothing hides it. */
  ghost predicate ShowsAt(selected: Option<set<string>>, boots: seq<Boot>, i: nat, p: Phase, o: Outcome) {
    && i < |boots| && p in boots[i].phases && IsSelected(selected, p)
    && Verdict(boots[i], p) == o && !Hidden(selected, boots, i, p)
  }

  ghost predicate Shows(selected: Option<set<string>>, boots: seq<Boot>, r: PhaseResult) {
    exists i: nat, p :: ShowsAt(selected, boots, i, p, r.outcome) && boots[i].name == r.boot && p.id == r.phaseId
  }

  lemma OfferedLater(selected: Option<set<string>>, boots: seq<Boot>, boot: Boot, name: string, id: string)
    ensures Offered(selected, boots + [boot], name, id) <==>
      || Offered(selected, boots, name, id)
      || (boot.name == name && exists p | p in boot.phases :: p.id == id && IsSelected(selected, p))
  {
    hide IsSelected;
    assert boot in boots + [boot];
    assert forall b | b in boots :: b in boots + [boot];
  }

  lemma ShowsLater(selected: Option<set<string>>, boots: seq<Boot>, boot: Boot, r: PhaseResult)
    ensures Shows(selected, boots + [boot], r) <==>
      || Shows(selected, boots, r)
      || exists p ::
           ShowsAt(selected, boots + [boot], |boots|, p, r.outcome) && boot.name == r.boot && p.id == r.phaseId
  {
    hide IsSelected, Offered, Verdict, GroupOutcome;
    var all := boots + [boot];
    forall i: nat, p | i < |boots|
      ensures ShowsAt(selected, all, i, p, r.outcome) <==> ShowsAt(selected, boots, i, p, r.outcome)
    {
      assert all[..i] == boots[..i];
    }
  }

  lemma InVerdicts(boot: Boot, phases: seq<Phase>, r: PhaseResult)
    ensures r in Verdicts(boot, phases) <==>
      exists p | p in phases :: r == PhaseResult(boot.name, p.id, Verdict(boot, p))
  {
    hide Verdict;
    if p :| p in phases && r == PhaseResult(boot.name, p.id, Verdict(boot, p)) {
      var i :| 0 <= i < |phases| && phases[i] == p;
      assert Verdicts(boot, phases)[i] == r;
    }
  }

  lemma {:induction false} InMarked(
    prior: seq<PhaseResult>, name: string, phases: seq<Phase>, outcome: Outcome, r: PhaseResult)
    ensures r in Marked(prior, name, phases, outcome) <==>
      exists p | p in phases :: !IsRecorded(prior, name, p.id) && r == PhaseResult(name, p.id, outcome)
    decreases phases
  {
    hide IsRecorded;
    if phases != [] {
      InMarked(prior, name, phases[1..], outcome, r);
      assert phases == [phases[0]] + phases[1..];
    }
  }

  /** What a boot adds, element by element. */
  lemma InRecorded(prior: seq<PhaseResult>, boot: Boot, phases: seq<Phase>, r: PhaseResult)
    ensures r in Recorded(prior, boot, phases) <==>
      exists p | p in phases ::
        && r == PhaseResult(boot.name, p.id, Verdict(boot, p))
        && !(GroupOutcome(boot).Some? && IsRecorded(prior, boot.name, p.id))
  {
    hide IsRecorded;
    if GroupOutcome(boot).Some? {
      InMarked(prior, boot.name, phases, GroupOutcome(boot).value, r);
    } else {
      InVerdicts(boot, phases, r);
    }
  }

  /**
   * The table of any run: the verdicts of the selected phases that nothing hides, and a
   * label and id are in it exactly when some boot offered them.
   */
  lemma {:induction false} TableOfRun(selected: Option<set<string>>, boots: seq<Boot>)
    ensures forall r :: r in Table(selected, boots) <==> Shows(selected, boots, r)
    ensures forall name, id :: IsRecorded(Table(selected, boots), name, id) <==> Offered(selected, boots, name, id)
  {
    hide Shows, Offered, Recorded, IsRecorded;
    if boots == [] {
      NothingShown(selected);
    } else {
      var init, last := boots[..|boots| - 1], boots[|boots| - 1];
      assert boots == init + [last];
      TableOfRun(selected, init);
      var prior, kept := Table(selected, init), Kept(selected, last.phases);
      forall r ensures r in Table(selected, boots) <==> Shows(selected, boots, r) {
        ShowsLater(selected, init, last, r);
        LastShows(selected, init, last, r);
      }
      forall name, id ensures IsRecorded(Table(selected, boots), name, id) <==> Offered(selected, boots, name, id) {
        RecordedLater(prior, last, kept, name, id);
        OfferedLater(selected, init, last, name, id);
        KeptIsSelected(selected, last.phases);
      }
    }
  }

  /**
   * A boot appends its selected phases' verdicts, once each and in order, exactly when
   * they ran or none of their ids was offered before under its label.
   */
  lemma BootAppendsVerdicts(selected: Option<set<string>>, boots: seq<Boot>, boot: Boot)
    ensures var kept := Kept(selected, boot.phases);
      Table(selected, boots + [boot]) == Table(selected, boots) + Verdicts(boot, kept) <==>
      GroupOutcome(boot).None? || forall p | p in kept :: !Offered(selected, boots, boot.name, p.id)
  {
    var prior, kept := Table(selected, boots), Kept(selected, boot.phases);
    assert (boots + [boot])[..|boots|] == boots;
    assert Table(selected, boots + [boot]) == prior + Recorded(prior, boot, kept);
    assert Table(selected, boots + [boot])[|prior|..] == Recorded(prior, boot, kept);
    assert (prior + Verdicts(boot, kept))[|prior|..] == Verdicts(boot, kept);
    hide Table, Kept, Recorded, IsRecorded, Offered, GroupOutcome, Verdicts;
    TableOfRun(selected, boots);
    OneOutcomeEach(prior, boot, kept);
  }

  lemma NothingShown(selected: Option<set<string>>)
    ensures forall r :: !Shows(selected, [], r)
    ensures forall name, id :: !Offered(selected, [], name, id) && !IsRecorded([], name, id)
  {
  }

  lemma LastShows(selected: Option<set<string>>, boots: seq<Boot>, boot: Boot, r: PhaseResult)
    requires forall name, id :: IsRecorded(Table(selected, boots), name, id) <==> Offered(selected, boots, name, id)
    ensures r in Recorded(Table(selected, boots), boot, Kept(selected, boot.phases)) <==>
      exists p :: ShowsAt(selected, boots + [boot], |boots|, p, r.outcome) && boot.name == r.boot && p.id == r.phaseId
  {
    var prior, kept, all := Table(selected, boots), Kept(selected, boot.phases), boots + [boot];
    InRecorded(prior, boot, kept, r);
    KeptIsSelected(selected, boot.phases);
    assert all[..|boots|] == boots && all[|boots|] == boot;
    hide IsRecorded, Offered, Recorded, Table, Kept, IsSelected, Verdict, GroupOutcome;
    if p :| ShowsAt(selected, all, |boots|, p, r.outcome) && boot.name == r.boot && p.id == r.phaseId {
      assert r == PhaseResult(boot.name, p.id, Verdict(boot, p));
    }
  }

  lemma RecordedLater(prior: seq<PhaseResult>, boot: Boot, phases: seq<Phase>, name: string, id: string)
    ensures IsRecorded(prior + Recorded(prior, boot, phases), name, id) <==>
      IsRecorded(prior, name, id) || (boot.name == name && exists p | p in phases :: p.id == id)
  {
    var added := Recorded(prior, boot, phases);
    hide Recorded, Verdict, GroupOutcome;
    forall r { InRecorded(prior, boot, phases, r); }
    if IsRecorded(prior, name, id) {
      var r :| r in prior && r.boot == name && r.phaseId == id;
      assert r in prior + added;
    } else if p :| p in phases && p.id == id && boot.name == name {
      var r := PhaseResult(boot.name, p.id, Verdict(boot, p));
      InRecorded(prior, boot, phases, r);
      assert r in prior + added;
    }
    if r :| r in prior + added && r.boot == name && r.phaseId == id && r !in prior {
      InRecorded(prior, boot, phases, r);
    }
  }

  // ------------------------------------------------------------------ exit codes

  /** Some selected phase of the run has this verdict. */
  ghost predicate SomeVerdict(selected: Option<set<string>>, boots: seq<Boot>, o: Outcome) {
    exists b, p | b in boots && p in b.phases :: IsSelected(selected, p) && Verdict(b, p) == o
  }

  /** And is not hidden. */
  ghost predicate SomeShown(selected: Option<set<string>>, boots: seq<Boot>, o: Outcome) {
    exists i: nat, p :: ShowsAt(selected, boots, i, p, o)
  }

  ghost predicate SomeSelected(selected: Option<set<string>>, boots: seq<Boot>) {
    exists b, p | b in boots && p in b.phases :: IsSelected(selected, p)
  }

  /** Every pinned id names a declared phase. */
  ghost predicate AllPinsDeclared(selected: Option<set<string>>, boots: seq<Boot>) {
    selected.Some? ==>
      forall id | id in selected.value :: exists b, p | b in boots && p in b.phases :: Canon(p.id) == id
  }

  ghost function RunCode(selected: Option<set<string>>, boots: seq<Boot>): int {
    ExitCode(selected, Matched(selected, boots), Table(selected, boots))
  }

  /** The code by what the phases deserve, whether or not the table shows it. */
  ghost function DeservedCode(selected: Option<set<string>>, boots: seq<Boot>): int {
    if !AllPinsDeclared(selected, boots) then 1
    else if !SomeSelected(selected, boots) then EXIT_SKIPPED
    else if SomeVerdict(selected, boots, Failed) then 1
    else if SomeVerdict(selected, boots, Blocked) then EXIT_BLOCKED
    else if SomeVerdict(selected, boots, Skipped) then EXIT_SKIPPED
    else 0
  }

  lemma TableShows(selected: Option<set<string>>, boots: seq<Boot>, o: Outcome)
    ensures SomeShown(selected, boots, o) <==> exists r | r in Table(selected, boots) :: r.outcome == o
  {
    hide ShowsAt, Table;
    TableOfRun(selected, boots);
    if i: nat, p :| ShowsAt(selected, boots, i, p, o) {
      assert i < |boots| by { ShownBoot(selected, boots, i, p, o); }
      var r := PhaseResult(boots[i].name, p.id, o);
      assert Shows(selected, boots, r) && r in Table(selected, boots);
    }
    if r :| r in Table(selected, boots) && r.outcome == o {
      assert Shows(selected, boots, r);
    }
  }

  lemma ShownBoot(selected: Option<set<string>>, boots: seq<Boot>, i: nat, p: Phase, o: Outcome)
    requires ShowsAt(selected, boots, i, p, o)
    ensures i < |boots|
  {
  }

  /** Hiding never empties a table: what hides a phase is in it. */
  lemma SelectedIsTabled(selected: Option<set<string>>, boots: seq<Boot>)
    ensures SomeSelected(selected, boots) <==> Table(selected, boots) != []
  {
    hide Table, IsSelected;
    TableOfRun(selected, boots);
    var table := Table(selected, boots);
    if b, p :| b in boots && p in b.phases && IsSelected(selected, p) {
      assert Offered(selected, boots, b.name, p.id) && IsRecorded(table, b.name, p.id);
    }
    if table != [] {
      assert table[0] in table && IsRecorded(table, table[0].boot, table[0].phaseId);
      assert Offered(selected, boots, table[0].boot, table[0].phaseId);
    }
  }

  /**
   * The exit code of any run.  It is 0 exactly when every pinned id names a declared
   * phase, some phase was selected, and every selected phase returned normally after a
   * successful boot and setup or is hidden; otherwise the severest shown reason wins.
   */
  lemma ExitCodeMeaning(selected: Option<set<string>>, boots: seq<Boot>)
    ensures var code := RunCode(selected, boots);
      && (code == 0 <==>
            && AllPinsDeclared(selected, boots) && SomeSelected(selected, boots)
            && forall i: nat, p | i < |boots| && p in boots[i].phases && IsSelected(selected, p) ::
                 Verdict(boots[i], p) == Passed || Hidden(selected, boots, i, p))
      && (code == 1 <==> !AllPinsDeclared(selected, boots) || SomeShown(selected, boots, Failed))
      && (code == EXIT_BLOCKED <==> code != 1 && SomeShown(selected, boots, Blocked))
      && (code == EXIT_SKIPPED <==>
            && code != 1 && code != EXIT_BLOCKED
            && (!SomeSelected(selected, boots) || SomeShown(selected, boots, Skipped)))
  {
    PinsMatched(selected, boots);
    SelectedIsTabled(selected, boots);
    forall o { TableShows(selected, boots, o); }
    NothingElseShown(selected, boots);
    ShownIsSelected(selected, boots);
    hide SomeShown, Hidden, Verdict, Table, IsSelected, AllPinsDeclared, Matched, SomeSelected;
  }

  lemma ShownIsSelected(selected: Option<set<string>>, boots: seq<Boot>)
    ensures forall o | SomeShown(selected, boots, o) :: SomeSelected(selected, boots)
  {
    hide IsSelected, Verdict, Hidden;
    forall o | SomeShown(selected, boots, o) ensures SomeSelected(selected, boots) {
      var i: nat, p :| ShowsAt(selected, boots, i, p, o);
      assert boots[i] in boots;
    }
  }

  lemma NothingElseShown(selected: Option<set<string>>, boots: seq<Boot>)
    ensures (forall i: nat, p | i < |boots| && p in boots[i].phases && IsSelected(selected, p) ::
               Verdict(boots[i], p) == Passed || Hidden(selected, boots, i, p)) <==>
      && !SomeShown(selected, boots, Failed) && !SomeShown(selected, boots, Blocked)
      && !SomeShown(selected, boots, Skipped)
  {
    hide IsSelected, Verdict, Hidden;
    if i: nat, p :| i < |boots| && p in boots[i].phases && IsSelected(selected, p)
                    && Verdict(boots[i], p) != Passed && !Hidden(selected, boots, i, p) {
      assert ShowsAt(selected, boots, i, p, Verdict(boots[i], p));
    }
  }

  // --------------------------------------------------- the exit code by endings

  /** The app was made and entered. */
  predicate CameUp(b: Boot) { b.factory.ending == Returned && b.enter.ending == Returned }

  /** And its setup, if it has one, returned: its phases ran. */
  predicate Ran(b: Boot) { CameUp(b) && (b.setup.Some? ==> b.setup.value.ending == Returned) }

  predicate SetupEnded(b: Boot, e: Ending) { b.setup.Some? && b.setup.value.ending == e }

  /** The app never came up, or its setup blocked or broke, or the phase itself broke. */
  predicate Broke(b: Boot, p: Phase) {
    || !CameUp(b)
    || SetupEnded(b, RaisedBlock) || SetupEnded(b, RaisedOther)
    || (Ran(b) && p.run.ending == RaisedOther)
  }

  predicate Stalled(b: Boot, p: Phase) { Ran(b) && p.run.ending == RaisedBlock }

  predicate PassedOver(b: Boot, p: Phase) {
    CameUp(b) && (SetupEnded(b, RaisedSkip) || (Ran(b) && p.run.ending == RaisedSkip))
  }

  /** Boot i has the selected phase p, and no earlier boot under its label hides that its phases did not run. */
  ghost predicate SeenAt(selected: Option<set<string>>, boots: seq<Boot>, i: nat, p: Phase) {
    && i < |boots| && p in boots[i].phases && IsSelected(selected, p)
    && (Ran(boots[i]) || !Offered(selected, boots[..i], boots[i].name, p.id))
  }

  ghost predicate SomeBroke(selected: Option<set<string>>, boots: seq<Boot>) {
    exists i: nat, p :: SeenAt(selected, boots, i, p) && Broke(boots[i], p)
  }

  ghost predicate SomeStalled(selected: Option<set<string>>, boots: seq<Boot>) {
    exists i: nat, p :: SeenAt(selected, boots, i, p) && Stalled(boots[i], p)
  }

  ghost predicate SomePassedOver(selected: Option<set<string>>, boots: seq<Boot>) {
    exists i: nat, p :: SeenAt(selected, boots, i, p) && PassedOver(boots[i], p)
  }

  /** What a run returns, told by how its callbacks ended. */
  ghost predicate CodeByEndings(selected: Option<set<string>>, boots: seq<Boot>, code: int) {
    && (code == 0 <==>
          && AllPinsDeclared(selected, boots) && SomeSelected(selected, boots)
          && forall i: nat, p | SeenAt(selected, boots, i, p) :: Ran(boots[i]) && p.run.ending == Returned)
    && (code == 1 <==> !AllPinsDeclared(selected, boots) || SomeBroke(selected, boots))
    && (code == 2 <==> code != 1 && SomeStalled(selected, boots))
    && (code == 3 <==>
          code != 1 && code != 2 && (!SomeSelected(selected, boots) || SomePassedOver(selected, boots)))
  }

  /** Which outcome is shown where, told by endings. */
  lemma OutcomeByEnding(b: Boot, p: Phase)
    ensures Verdict(b, p) == Failed <==> Broke(b, p)
    ensures Verdict(b, p) == Blocked <==> Stalled(b, p)
    ensures Verdict(b, p) == Skipped <==> PassedOver(b, p)
    ensures Verdict(b, p) == Passed <==> Ran(b) && p.run.ending == Returned
    ensures GroupOutcome(b).None? <==> Ran(b)
  {
  }

  lemma SeenIsShown(selected: Option<set<string>>, boots: seq<Boot>, i: nat, p: Phase)
    ensures SeenAt(selected, boots, i, p) <==>
      i < |boots| && ShowsAt(selected, boots, i, p, Verdict(boots[i], p))
  {
    if i < |boots| {
      OutcomeByEnding(boots[i], p);
    }
    hide IsSelected, Offered, Verdict, GroupOutcome, Ran;
  }

  lemma ShownByEnding(selected: Option<set<string>>, boots: seq<Boot>)
    ensures SomeShown(selected, boots, Failed) <==> SomeBroke(selected, boots)
    ensures SomeShown(selected, boots, Blocked) <==> SomeStalled(selected, boots)
    ensures SomeShown(selected, boots, Skipped) <==> SomePassedOver(selected, boots)
    ensures (exists i: nat, p :: SeenAt(selected, boots, i, p) && !(Ran(boots[i]) && p.run.ending == Returned)) <==>
      SomeBroke(selected, boots) || SomeStalled(selected, boots) || SomePassedOver(selected, boots)
  {
    forall i: nat, p | i < |boots|
      ensures SeenAt(selected, boots, i, p) <==> ShowsAt(selected, boots, i, p, Verdict(boots[i], p))
      ensures forall o | ShowsAt(selected, boots, i, p, o) :: o == Verdict(boots[i], p)
      ensures Verdict(boots[i], p) == Failed <==> Broke(boots[i], p)
      ensures Verdict(boots[i], p) == Blocked <==> Stalled(boots[i], p)
      ensures Verdict(boots[i], p) == Skipped <==> PassedOver(boots[i], p)
      ensures Verdict(boots[i], p) == Passed <==> Ran(boots[i]) && p.run.ending == Returned
    {
      SeenIsShown(selected, boots, i, p);
      OutcomeByEnding(boots[i], p);
    }
    forall i: nat, p, o | ShowsAt(selected, boots, i, p, o) ensures i < |boots| { ShownBoot(selected, boots, i, p, o); }
    hide ShowsAt, SeenAt, Verdict, Broke, Stalled, PassedOver, Ran;
  }

  /** The exit code of any run, by endings alone. */
  lemma ExitCodeByEndings(selected: Option<set<string>>, boots: seq<Boot>)
    ensures CodeByEndings(selected, boots, RunCode(selected, boots))
  {
    ExitCodeMeaning(selected, boots);
    NothingElseShown(selected, boots);
    ShownByEnding(selected, boots);
    hide RunCode, SeenAt, SomeShown, SomeBroke, SomeStalled, SomePassedOver, Ran, AllPinsDeclared, SomeSelected;
  }

  // --------------------------------------------- when the code is what is deserved

  /** Boot i has selected phases, and each has its id offered earlier under the same label. */
  ghost predicate Covered(selected: Option<set<string>>, boots: seq<Boot>, i: nat) {
    && i < |boots|
    && (exists p | p in boots[i].phases :: IsSelected(selected, p))
    && forall p | p in boots[i].phases && IsSelected(selected, p) :: Offered(selected, boots[..i], boots[i].name, p.id)
  }

  /** A verdict is missing from the table only when it is the group outcome of a covered boot. */
  lemma MissingVerdict(selected: Option<set<string>>, boots: seq<Boot>, o: Outcome) returns (i: nat)
    requires SomeVerdict(selected, boots, o) && !SomeShown(selected, boots, o)
    ensures Covered(selected, boots, i) && GroupOutcome(boots[i]) == Some(o)
  {
    hide IsSelected, Offered, GroupOutcome;
    var b, p :| b in boots && p in b.phases && IsSelected(selected, p) && Verdict(b, p) == o;
    i :| i < |boots| && boots[i] == b;
    assert !ShowsAt(selected, boots, i, p, o);
    forall q | q in b.phases && IsSelected(selected, q) ensures Offered(selected, boots[..i], b.name, q.id) {
      assert !ShowsAt(selected, boots, i, q, o);
    }
  }

  lemma ShownIsDeserved(selected: Option<set<string>>, boots: seq<Boot>, o: Outcome)
    requires SomeShown(selected, boots, o)
    ensures SomeVerdict(selected, boots, o)
  {
    var i: nat, p :| ShowsAt(selected, boots, i, p, o);
    assert boots[i] in boots;
  }

  /** A run in which no covered boot fails or skips as a group exits as it deserves. */
  lemma DeservedUnlessSwallowed(selected: Option<set<string>>, boots: seq<Boot>)
    requires forall i: nat | Covered(selected, boots, i) :: GroupOutcome(boots[i]).None?
    ensures RunCode(selected, boots) == DeservedCode(selected, boots)
  {
    hide SomeShown, SomeVerdict, Covered, SomeSelected, AllPinsDeclared, Hidden, Verdict, IsSelected, GroupOutcome;
    ExitCodeMeaning(selected, boots);
    ShownIsSelected(selected, boots);
    forall o ensures SomeShown(selected, boots, o) <==> SomeVerdict(selected, boots, o) {
      if SomeShown(selected, boots, o) {
        ShownIsDeserved(selected, boots, o);
      } else if SomeVerdict(selected, boots, o) {
        var i := MissingVerdict(selected, boots, o);
      }
    }
    NothingElseShown(selected, boots);
    hide RunCode;
  }

  /** The same boots and phases, whatever their callbacks do. */
  predicate SameScript(a: seq<Boot>, b: seq<Boot>) {
    && |a| == |b|
    && forall i | 0 <= i < |a| ::
         && a[i].name == b[i].name && |a[i].phases| == |b[i].phases|
         && forall k | 0 <= k < |a[i].phases| :: a[i].phases[k].id == b[i].phases[k].id
  }

  lemma OfferedAt(selected: Option<set<string>>, boots: seq<Boot>, i: nat, k: nat)
    requires i < |boots| && k < |boots[i].phases| && IsSelected(selected, boots[i].phases[k])
    ensures Offered(selected, boots, boots[i].name, boots[i].phases[k].id)
  {
    assert boots[i] in boots && boots[i].phases[k] in boots[i].phases;
  }

  lemma SameOffers(selected: Option<set<string>>, a: seq<Boot>, b: seq<Boot>, name: string, id: string)
    requires SameScript(a, b)
    ensures Offered(selected, a, name, id) ==> Offered(selected, b, name, id)
  {
    hide Canon;
    if boot, p :| boot in a && p in boot.phases && boot.name == name && p.id == id && IsSelected(selected, p) {
      var i: nat :| i < |a| && a[i] == boot;
      var k: nat :| k < |boot.phases| && boot.phases[k] == p;
      assert b[i].name == name && b[i].phases[k].id == id;
      hide SameScript;
      OfferedAt(selected, b, i, k);
    }
  }

  lemma SameCover(selected: Option<set<string>>, a: seq<Boot>, b: seq<Boot>, i: nat)
    requires SameScript(a, b) && Covered(selected, a, i)
    ensures Covered(selected, b, i)
  {
    hide Canon, Offered;
    var p :| p in a[i].phases && IsSelected(selected, p);
    var k :| 0 <= k < |a[i].phases| && a[i].phases[k] == p;
    assert b[i].phases[k] in b[i].phases;
    forall q | q in b[i].phases && IsSelected(selected, q) ensures Offered(selected, b[..i], b[i].name, q.id) {
      var m :| 0 <= m < |b[i].phases| && b[i].phases[m] == q;
      assert a[i].phases[m] in a[i].phases && IsSelected(selected, a[i].phases[m]);
      SameOffers(selected, a[..i], b[..i], a[i].name, q.id);
    }
  }

  lemma SamePins(selected: Option<set<string>>, a: seq<Boot>, b: seq<Boot>)
    requires SameScript(a, b) && AllPinsDeclared(selected, a)
    ensures AllPinsDeclared(selected, b)
  {
    hide Canon;
    if selected.Some? {
      forall id | id in selected.value ensures exists boot, p | boot in b && p in boot.phases :: Canon(p.id) == id {
        var boot, p :| boot in a && p in boot.phases && Canon(p.id) == id;
        var i :| 0 <= i < |a| && a[i] == boot;
        var k :| 0 <= k < |boot.phases| && boot.phases[k] == p;
        assert b[i] in b && b[i].phases[k] in b[i].phases;
      }
    }
  }

  const FINE := Callback(Returned, (env: Env) => env)
  const BROKEN := Callback(RaisedOther, (env: Env) => env)

  /** The boot with callbacks that all return, but for the factory if it is to be down. */
  function Staged(boot: Boot, down: bool): Boot {
    Boot(boot.name, seq(|boot.phases|, k requires 0 <= k < |boot.phases| => Phase(boot.phases[k].id, FINE)),
         if down then BROKEN else FINE, FINE, None, FINE, map[], {})
  }

  /** The same script, in which everything goes well except that boot `down` never comes up. */
  function AllButOne(boots: seq<Boot>, down: nat): seq<Boot> {
    seq(|boots|, i requires 0 <= i < |boots| => Staged(boots[i], i == down))
  }

  /** A covered boot that fails as a group leaves the exit code 0 when all else passes. */
  lemma SwallowedBoot(selected: Option<set<string>>, boots: seq<Boot>, i: nat)
    requires Covered(selected, boots, i) && AllPinsDeclared(selected, boots) && GroupOutcome(boots[i]) == Some(Failed)
    requires forall j, p | 0 <= j < |boots| && j != i && p in boots[j].phases :: Verdict(boots[j], p) == Passed
    ensures RunCode(selected, boots) == 0 && DeservedCode(selected, boots) == 1
  {
    hide AllPinsDeclared, IsSelected, Offered, GroupOutcome, RunCode;
    var p :| p in boots[i].phases && IsSelected(selected, p);
    assert boots[i] in boots && Verdict(boots[i], p) == Failed;
    assert SomeSelected(selected, boots) && SomeVerdict(selected, boots, Failed);
    hide SomeSelected, SomeVerdict;
    forall j: nat, q | j < |boots| && q in boots[j].phases && IsSelected(selected, q)
      ensures Verdict(boots[j], q) == Passed || Hidden(selected, boots, j, q) { }
    hide Verdict, Hidden, SomeShown, Covered;
    ExitCodeMeaning(selected, boots);
  }

  lemma CoverCanSwallow(selected: Option<set<string>>, boots: seq<Boot>, i: nat)
    requires Covered(selected, boots, i) && AllPinsDeclared(selected, boots)
    ensures SameScript(boots, AllButOne(boots, i))
    ensures RunCode(selected, AllButOne(boots, i)) != DeservedCode(selected, AllButOne(boots, i))
  {
    var run := AllButOne(boots, i);
    SamePins(selected, boots, run);
    SameCover(selected, boots, run, i);
    StagedVerdicts(boots, i);
    assert run[i] == Staged(boots[i], true);
    hide AllPinsDeclared, Verdict, RunCode, DeservedCode, Covered;
    SwallowedBoot(selected, run, i);
  }

  lemma StagedVerdicts(boots: seq<Boot>, down: nat)
    ensures var run := AllButOne(boots, down);
      && |run| == |boots|
      && forall j, q | 0 <= j < |run| && q in run[j].phases ::
           if j == down then GroupOutcome(run[j]) == Some(Failed) && Verdict(run[j], q) == Failed
           else Verdict(run[j], q) == Passed
  {
    var run := AllButOne(boots, down);
    forall j, q | 0 <= j < |run| && q in run[j].phases && j != down ensures Verdict(run[j], q) == Passed {
      var k :| 0 <= k < |run[j].phases| && run[j].phases[k] == q;
    }
  }

  /**
   * What a caller can check beforehand: whatever the callbacks do, the exit code is the
   * deserved one exactly when some pinned id is not declared, or no boot has all of its
   * selected phase ids offered before under its label.
   */
  lemma ExitCodeIsDeserved(selected: Option<set<string>>, boots: seq<Boot>)
    ensures (forall run | SameScript(boots, run) :: RunCode(selected, run) == DeservedCode(selected, run)) <==>
      !AllPinsDeclared(selected, boots) || forall i: nat :: !Covered(selected, boots, i)
  {
    hide AllPinsDeclared, Covered, RunCode, DeservedCode, AllButOne;
    if !AllPinsDeclared(selected, boots) || forall i: nat :: !Covered(selected, boots, i) {
      forall run | SameScript(boots, run) ensures RunCode(selected, run) == DeservedCode(selected, run) {
        SameScriptBack(boots, run);
        if !AllPinsDeclared(selected, boots) {
          if AllPinsDeclared(selected, run) { SamePins(selected, run, boots); }
          UndeclaredPin(selected, run);
        } else {
          forall i: nat | Covered(selected, run, i) ensures false { SameCover(selected, run, boots, i); }
          DeservedUnlessSwallowed(selected, run);
        }
      }
    } else {
      var i: nat :| Covered(selected, boots, i);
      CoverCanSwallow(selected, boots, i);
    }
  }

  lemma SameScriptBack(a: seq<Boot>, b: seq<Boot>)
    requires SameScript(a, b)
    ensures SameScript(b, a)
  {
  }

  lemma UndeclaredPin(selected: Option<set<string>>, boots: seq<Boot>)
    requires !AllPinsDeclared(selected, boots)
    ensures RunCode(selected, boots) == DeservedCode(selected, boots) == 1
  {
    hide AllPinsDeclared, Table, Matched;
    PinsMatched(selected, boots);
  }

  lemma PinsMatched(selected: Option<set<string>>, boots: seq<Boot>)
    ensures AllPinsDeclared(selected, boots) <==> !(selected.Some? && selected.value - Matched(selected, boots) != {})
  {
    hide Kept, Canon;
    if selected.Some? {
      forall b | b in boots
        ensures forall p :: p in Kept(selected, b.phases) <==> p in b.phases && IsSelected(selected, p)
      {
        KeptIsSelected(selected, b.phases);
      }
      forall id | id in selected.value
        ensures id in Matched(selected, boots) <==> exists b, p | b in boots && p in b.phases :: Canon(p.id) == id
      {
        if b, p :| b in boots && p in b.phases && Canon(p.id) == id {
          assert p in Kept(selected, b.phases);
        }
      }
      if AllPinsDeclared(selected, boots) {
        assert selected.value - Matched(selected, boots) == {};
      } else {
        var id :| id in selected.value && !exists b, p | b in boots && p in b.phases :: Canon(p.id) == id;
        assert id in selected.value - Matched(selected, boots);
      }
    }
  }

  /**
   * The smallest such run.  When a second boot reuses the label and phase id of one
   * that passed, and never comes up, nothing is recorded for it and the run exits 0.
   */
  lemma SharedLabelHidesAFailedBoot(fine: Callback, broken: Callback)
    requires fine.ending == Returned && broken.ending != Returned
    ensures var phase := Phase("p", fine);
      var up := Boot("b", [phase], fine, fine, None, fine, map[], {});
      var down := Boot("b", [phase], broken, fine, None, fine, map[], {});
      && Verdict(down, phase) == Failed
      && ExitCode(None, {}, Table(None, [up, down])) == 0
  {
    var phase := Phase("p", fine);
    var up := Boot("b", [phase], fine, fine, None, fine, map[], {});
    var down := Boot("b", [phase], broken, fine, None, fine, map[], {});
    var first := [PhaseResult("b", "p", Passed)];
    assert [up][..0] == [] && [up, down][..1] == [up];
    assert Table(None, [up]) == first;
    assert first[0] in first && IsRecorded(first, "b", "p");
    assert Marked(first, "b", [phase], Failed) == [];
    assert Table(None, [up, down]) == first;
  }

  // ----------------------------------------------------------- the code itself

  /** The table, the pins met so far and the process environment, shared by all boots. */
  class JourneyPlan {
    const selected: Option<set<string>>
    var results: seq<PhaseResult>
    var matched: set<string>
    var environ: Env

    constructor (selected: Option<set<string>>, environ: Env)
      ensures this.selected == selected && results == [] && matched == {} && this.environ == environ
    {
      this.selected := selected;
      results := [];
      matched := {};
      this.environ := environ;
    }

    /** Run a callback: its effect happens, and how it ended comes back. */
    method Call(c: Callback) returns (ending: Ending)
      modifies this`environ
      ensures ending == c.ending && environ == c.effect(old(environ))
    {
      environ := c.effect(environ);
      ending := c.ending;
    }

    method Record(boot: string, phaseId: string, outcome: Outcome)
      modifies this`results
      ensures results == old(results) + [PhaseResult(boot, phaseId, outcome)]
    {
      results := results + [PhaseResult(boot, phaseId, outcome)];
    }

    /** One result is added, whatever the callback does. */
    method RunPhase(boot: string, phase: Phase)
      modifies this`results, this`environ
      ensures results == old(results) + [PhaseResult(boot, phase.id, PhaseOutcome(phase.run.ending))]
      ensures environ == phase.run.effect(old(environ))
      ensures var added := results[|old(results)|].outcome;
        && (added == Passed <==> phase.run.ending == Returned)
        && (added == Skipped <==> phase.run.ending == RaisedSkip)
        && (added == Blocked <==> phase.run.ending == RaisedBlock)
        && (added == Failed <==> phase.run.ending == RaisedOther)
    {
      var ending := Call(phase.run);
      match ending
      case RaisedSkip => Record(boot, phase.id, Skipped);
      case RaisedBlock => Record(boot, phase.id, Blocked);
      case RaisedOther => Record(boot, phase.id, Failed);
      case Returned => Record(boot, phase.id, Passed);
    }

    method Pin(phases: seq<Phase>) returns (kept: seq<Phase>)
      modifies this`matched
      ensures kept == Kept(selected, phases)
      ensures matched == old(matched) + if selected.None? then {} else set i | 0 <= i < |kept| :: Canon(kept[i].id)
    {
      hide Canon;
      if selected.None? {
        return phases;
      }
      kept := [];
      for i := 0 to |phases|
        invariant Kept(selected, phases) == kept + Kept(selected, phases[i..])
      {
        assert phases[i..][1..] == phases[i + 1..];
        if Canon(phases[i].id) in selected.value {
          kept := kept + [phases[i]];
        }
      }
      matched := matched + set i | 0 <= i < |kept| :: Canon(kept[i].id);
    }

    method SkipGroup(name: string, phases: seq<Phase>, outcome: Outcome)
      modifies this`results
      ensures results == old(results) + Marked(old(results), name, phases, outcome)
    {
      hide IsRecorded, Marked;
      var recorded := results;
      ghost var goal := recorded + Marked(recorded, name, phases, outcome);
      assert phases[0..] == phases;
      for i := 0 to |phases|
        invariant goal == results + Marked(recorded, name, phases[i..], outcome)
      {
        MarkedStep(recorded, name, phases, i, outcome);
        if !IsRecorded(recorded, name, phases[i].id) {
          OneMore(results, PhaseResult(name, phases[i].id, outcome), Marked(recorded, name, phases[i + 1..], outcome));
          Record(name, phases[i].id, outcome);
        }
      }
      assert phases[|phases|..] == [];
      NothingMarked(recorded, name, outcome);
    }

    /** Entry, setup, phases and teardown of a session that exists. */
    method RunSession(boot: Boot, phases: seq<Phase>)
      requires boot.factory.ending == Returned
      modifies this`results, this`environ
      ensures results == old(results) + Recorded(old(results), boot, phases)
      ensures environ == (
        var entered := boot.enter.effect(old(environ));
        if boot.enter.ending != Returned then entered
        else
          var ready := match boot.setup case Some(c) => c.effect(entered) case None => entered;
          boot.leave.effect(if GroupOutcome(boot).None? then PhasesEnv(phases, ready) else ready))
    {
      ghost var prior := results;
      var ending := Call(boot.enter);
      if ending != Returned {
        SkipGroup(boot.name, phases, Failed);
        return;
      }
      var ready := true;
      if boot.setup.Some? {
        var setUp := Call(boot.setup.value);
        if setUp == RaisedSkip {
          SkipGroup(boot.name, phases, Skipped);
          ready := false;
        } else if setUp != Returned {
          SkipGroup(boot.name, phases, Failed);
          ready := false;
        }
      }
      if ready {
        RunPhases(boot, phases);
        VerdictsRecord(prior, boot, phases);
      } else {
        MarkedRecords(prior, boot.name, phases, GroupOutcome(boot).value);
      }
      var left := Call(boot.leave);
      if left != Returned {
        ghost var table := results;
        SkipGroup(boot.name, phases, Failed);
        MarkedTwice(table, boot.name, phases, Failed);
      }
    }

    method RunPhases(boot: Boot, phases: seq<Phase>)
      requires GroupOutcome(boot).None?
      modifies this`results, this`environ
      ensures results == old(results) + Verdicts(boot, phases)
      ensures environ == PhasesEnv(phases, old(environ))
    {
      for i := 0 to |phases|
        invariant results == old(results) + Verdicts(boot, phases[..i])
        invariant PhasesEnv(phases, old(environ)) == PhasesEnv(phases[i..], environ)
      {
        assert phases[i..][1..] == phases[i + 1..];
        RunPhase(boot.name, phases[i]);
        assert Verdicts(boot, phases[..i + 1]) ==
          Verdicts(boot, phases[..i]) + [PhaseResult(boot.name, phases[i].id, Verdict(boot, phases[i]))];
      }
      assert phases[..|phases|] == phases;
    }

    /** One boot of the script: the table grows by what the boot deserves, and the managed names are restored. */
    method BootUp(boot: Boot)
      modifies this
      ensures var kept := Kept(selected, boot.phases);
        && results == old(results) + (if kept == [] then [] else Recorded(old(results), boot, kept))
        && matched == old(matched) + (if selected.None? then {} else set i | 0 <= i < |kept| :: Canon(kept[i].id))
        && environ == (if kept == [] then old(environ)
                       else Restored(old(environ), Managed(boot),
                                     EnvAfter(Calls(boot, kept), Scoped(boot, old(environ)))))
      ensures forall n | n in Managed(boot) :: Get(environ, n) == Get(old(environ), n)
    {
      hide Canon, Kept;
      var phases := Pin(boot.phases);
      if phases == [] {
        return;
      }
      var previous := environ;
      environ := Scoped(boot, environ);
      BodyIsCalls(boot, phases, environ);
      var made := Call(boot.factory);
      if made != Returned {
        SkipGroup(boot.name, phases, Failed);
      } else {
        RunSession(boot, phases);
      }
      environ := Restored(previous, Managed(boot), environ);
    }

    /** The verdict of the whole run so far. */
    method Finish() returns (code: int)
      ensures code == ExitCode(selected, matched, results)
    {
      code := ExitCode(selected, matched, results);
    }
  }

  /** Any script of boots, run on a fresh plan. */
  method RunBoots(plan: JourneyPlan, boots: seq<Boot>) returns (code: int)
    requires plan.results == [] && plan.matched == {}
    modifies plan
    ensures plan.results == Table(plan.selected, boots)
    ensures code == RunCode(plan.selected, boots) && CodeByEndings(plan.selected, boots, code)
  {
    hide Canon, Kept, Recorded;
    for i := 0 to |boots|
      invariant plan.results == Table(plan.selected, boots[..i])
      invariant plan.matched == Matched(plan.selected, boots[..i])
    {
      ghost var kept := Kept(plan.selected, boots[i].phases);
      plan.BootUp(boots[i]);
      assert boots[..i + 1][..i] == boots[..i];
      MatchedSnoc(plan.selected, boots[..i], boots[i]);
      assert boots[..i + 1] == boots[..i] + [boots[i]];
      NothingRecorded(Table(plan.selected, boots[..i]), boots[i]);
    }
    assert boots[..|boots|] == boots;
    code := plan.Finish();
    ExitCodeByEndings(plan.selected, boots);
  }

  lemma NothingRecorded(prior: seq<PhaseResult>, boot: Boot)
    ensures Recorded(prior, boot, []) == []
  {
  }

  lemma MatchedSnoc(selected: Option<set<string>>, boots: seq<Boot>, boot: Boot)
    ensures var kept := Kept(selected, boot.phases);
      Matched(selected, boots + [boot]) ==
      Matched(selected, boots) + (if selected.None? then {} else set i | 0 <= i < |kept| :: Canon(kept[i].id))
  {
    hide Canon, Kept;
    var kept := Kept(selected, boot.phases);
    if selected.Some? {
      forall id | id in Matched(selected, boots + [boot])
        ensures id in Matched(selected, boots) || id in set i | 0 <= i < |kept| :: Canon(kept[i].id)
      {
        var b, p :| b in boots + [boot] && p in Kept(selected, b.phases) && id == Canon(p.id);
        if b !in boots {
          var i :| 0 <= i < |kept| && kept[i] == p;
        }
      }
      forall i | 0 <= i < |kept| ensures Canon(kept[i].id) in Matched(selected, boots + [boot]) {
        assert kept[i] in kept && boot in boots + [boot];
      }
    }
  }
}
