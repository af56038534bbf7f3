/**
 * The effect ledger of a run: staged effects are revised, decided and applied as
 * events.  One fold reads the current stages off the log, one check holds a stage's
 * decision and application against it.
 */
module EffectLedger {
  import opened Text

  datatype Value = Str(s: string) | Int(n: int) | Opaque

  datatype Event = Event(kind: string, payload: map<string, Value>)

  const STAGED := "effect.staged"
  const REVISED := "effect.revised"
  const DECIDED := "effect.decision_recorded"
  const APPLIED := "effect.applied"

  datatype Stage = Stage(id: string, revision: int, proposal: string, target: string, ref: string, executor: string)

  function Get(e: Event, key: string): Option<Value> {
    if key in e.payload then Some(e.payload[key]) else None
  }

  /** A non-empty text field. */
  function TextField(e: Event, key: string): Option<string> {
    match Get(e, key) case Some(Str(s)) => if s == "" then None else Some(s) case _ => None
  }

  predicate IsDigest(s: string) {
    |s| == 64 && forall i | 0 <= i < 64 :: '0' <= s[i] <= '9' || 'a' <= s[i] <= 'f'
  }

  function DigestField(e: Event, key: string): Option<string> {
    match TextField(e, key) case Some(s) => if IsDigest(s) then Some(s) else None case None => None
  }

  /** The stage an event records at a revision; None when a required field is missing or malformed. */
  function Recorded(e: Event, id: string, revision: int, executor: Option<string>): Option<Stage> {
    match (DigestField(e, "proposal_digest"), DigestField(e, "target_digest"), TextField(e, "target_ref"), executor)
    case (Some(p), Some(t), Some(r), Some(x)) => Some(Stage(id, revision, p, t, r, x))
    case _ => None
  }

  /** The staged effects in order of their first staging. */
  datatype Ledger = Ledger(order: seq<string>, stages: map<string, Stage>)

  predicate Stages(e: Event, id: string) { e.kind == STAGED && TextField(e, "stage_id") == Some(id) }

  predicate Revises(e: Event, id: string) { e.kind == REVISED && Get(e, "stage_id") == Some(Str(id)) }

  function Put(l: Ledger, s: Stage): Ledger {
    Ledger(if s.id in l.stages then l.order else l.order + [s.id], l.stages[s.id := s])
  }

  /** One event; None when an assertion on it fails. */
  function Apply(l: Ledger, e: Event): Option<Ledger> {
    if e.kind == STAGED then
      match TextField(e, "stage_id")
      case None => Some(l)
      case Some(id) =>
        match Recorded(e, id, 1, TextField(e, "executor")) case Some(s) => Some(Put(l, s)) case None => None
    else if e.kind == REVISED then
      match Get(e, "stage_id")
      case Some(Str(id)) =>
        if id !in l.stages then Some(l)
        else
          (match Get(e, "revision")
           case Some(Int(n)) =>
             if n > l.stages[id].revision then
               match Recorded(e, id, n, Some(l.stages[id].executor)) case Some(s) => Some(Put(l, s)) case None => None
             else None
           case _ => None)
      case _ => Some(l)
    else Some(l)
  }

  /** The ledger after the first n events. */
  function Fold(events: seq<Event>, n: nat): Option<Ledger>
    requires n <= |events|
    decreases n
  {
    if n == 0 then Some(Ledger([], map[]))
    else match Fold(events, n - 1) case Some(l) => Apply(l, events[n - 1]) case None => None
  }

  /** `i` is the last staging of id among the first n events. */
  predicate LastStaging(events: seq<Event>, n: nat, id: string, i: nat)
    requires n <= |events|
  {
    i < n && Stages(events[i], id) && forall k | i < k < n :: !Stages(events[k], id)
  }

  /** `j` is the last record of id since its staging at i: that staging, or a later revision. */
  predicate LastRecord(events: seq<Event>, n: nat, id: string, i: nat, j: nat)
    requires n <= |events|
  {
    && LastStaging(events, n, id, i) && i <= j < n
    && (j > i ==> Revises(events[j], id))
    && forall k | j < k < n :: !Revises(events[k], id)
  }

  function RevisionAt(events: seq<Event>, i: nat, j: nat): Option<int>
    requires j < |events|
  {
    if j == i then Some(1) else match Get(events[j], "revision") case Some(Int(r)) => Some(r) case _ => None
  }

  predicate RevisedBelow(events: seq<Event>, k: nat, bound: int)
    requires k < |events|
  {
    match Get(events[k], "revision") case Some(Int(r)) => 1 < r < bound case _ => false
  }

  /**
   * The stage is what the log last says about id: the digests and the target of the last
   * record, the executor of the last staging, and a revision above that of every other record since.
   */
  predicate CurrentAt(events: seq<Event>, n: nat, id: string, s: Stage, i: nat, j: nat)
    requires n <= |events|
  {
    && LastRecord(events, n, id, i, j)
    && RevisionAt(events, i, j) == Some(s.revision)
    && Recorded(events[j], id, s.revision, TextField(events[i], "executor")) == Some(s)
    && (j > i ==> s.revision > 1)
    && (forall k | i < k < j && Revises(events[k], id) :: RevisedBelow(events, k, s.revision))
  }

  ghost predicate IsCurrent(events: seq<Event>, n: nat, id: string, s: Stage)
    requires n <= |events|
  {
    exists i: nat, j: nat :: CurrentAt(events, n, id, s, i, j)
  }

  lemma CurrentIsKept(events: seq<Event>, n: nat, id: string, s: Stage)
    requires 0 < n <= |events| && IsCurrent(events, n - 1, id, s)
    requires !Stages(events[n - 1], id) && !Revises(events[n - 1], id)
    ensures IsCurrent(events, n, id, s)
  {
    hide Recorded, Stages, Revises, RevisionAt, TextField, RevisedBelow;
    var i: nat, j: nat :| CurrentAt(events, n - 1, id, s, i, j);
    assert CurrentAt(events, n, id, s, i, j);
  }

  lemma StagingIsCurrent(events: seq<Event>, n: nat, id: string, s: Stage)
    requires 0 < n <= |events| && Stages(events[n - 1], id)
    requires Recorded(events[n - 1], id, 1, TextField(events[n - 1], "executor")) == Some(s)
    ensures IsCurrent(events, n, id, s)
  {
    assert CurrentAt(events, n, id, s, n - 1, n - 1);
  }

  lemma RecordedFields(e: Event, id: string, revision: int, executor: Option<string>)
    ensures match Recorded(e, id, revision, executor)
      case Some(s) => s.id == id && s.revision == revision && executor == Some(s.executor)
      case None => true
  {
  }

  lemma RevisionIsCurrent(events: seq<Event>, n: nat, id: string, prior: Stage, s: Stage)
    requires 0 < n <= |events| && IsCurrent(events, n - 1, id, prior) && Revises(events[n - 1], id)
    requires Get(events[n - 1], "revision") == Some(Int(s.revision)) && s.revision > prior.revision
    requires Recorded(events[n - 1], id, s.revision, Some(prior.executor)) == Some(s)
    ensures IsCurrent(events, n, id, s)
  {
    var i: nat, j: nat :| CurrentAt(events, n - 1, id, prior, i, j);
    RecordedFields(events[j], id, prior.revision, TextField(events[i], "executor"));
    hide TextField, Recorded;
    assert !Stages(events[n - 1], id);
    assert prior.revision >= 1;
    forall k | i < k < n - 1 && Revises(events[k], id) ensures RevisedBelow(events, k, s.revision) {
      if k != j {
        assert RevisedBelow(events, k, prior.revision);
      }
    }
    assert CurrentAt(events, n, id, s, i, n - 1);
  }

  /** What Apply does to the entry of one id. */
  lemma ApplyToOne(events: seq<Event>, n: nat, l: Ledger, l': Ledger, id: string)
    requires 0 < n <= |events| && Apply(l, events[n - 1]) == Some(l')
    requires id in l.stages ==> l.stages[id].id == id && IsCurrent(events, n - 1, id, l.stages[id])
    requires id in l.stages <==> exists k | 0 <= k < n - 1 :: Stages(events[k], id)
    ensures id in l'.stages ==> l'.stages[id].id == id && IsCurrent(events, n, id, l'.stages[id])
    ensures id in l'.stages <==> exists k | 0 <= k < n :: Stages(events[k], id)
  {
    hide IsCurrent, Recorded, TextField;
    var e := events[n - 1];
    assert (exists k | 0 <= k < n :: Stages(events[k], id)) <==>
           Stages(e, id) || exists k | 0 <= k < n - 1 :: Stages(events[k], id);
    if Stages(e, id) {
      var s := Recorded(e, id, 1, TextField(e, "executor"));
      RecordedFields(e, id, 1, TextField(e, "executor"));
      StagingIsCurrent(events, n, id, s.value);
    } else if Revises(e, id) && id in l.stages {
      var prior := l.stages[id];
      var r := Get(e, "revision").value.n;
      RecordedFields(e, id, r, Some(prior.executor));
      RevisionIsCurrent(events, n, id, prior, Recorded(e, id, r, Some(prior.executor)).value);
    } else {
      OtherIdsStay(l, e, l', id);
      if id in l.stages {
        CurrentIsKept(events, n, id, l.stages[id]);
      }
    }
  }

  lemma OtherIdsStay(l: Ledger, e: Event, l': Ledger, id: string)
    requires Apply(l, e) == Some(l') && !Stages(e, id) && !(Revises(e, id) && id in l.stages)
    ensures id in l'.stages <==> id in l.stages
    ensures id in l.stages ==> l'.stages[id] == l.stages[id]
  {
    hide TextField, Recorded;
    if e.kind == STAGED && TextField(e, "stage_id").Some? {
      RecordedFields(e, TextField(e, "stage_id").value, 1, TextField(e, "executor"));
    } else if e.kind == REVISED {
      match Get(e, "stage_id")
      case Some(Str(other)) =>
        if other in l.stages {
          RecordedFields(e, other, Get(e, "revision").value.n, Some(l.stages[other].executor));
        }
      case _ =>
    }
  }

  /** The fold yields, for exactly the staged ids, what the log last says about each. */
  lemma {:induction false} FoldIsCurrent(events: seq<Event>, n: nat, id: string)
    requires n <= |events| && Fold(events, n).Some?
    ensures var l := Fold(events, n).value;
      && (id in l.stages <==> exists k | 0 <= k < n :: Stages(events[k], id))
      && (id in l.stages ==> l.stages[id].id == id && IsCurrent(events, n, id, l.stages[id]))
    decreases n
  {
    hide IsCurrent, Apply, Stages;
    if n > 0 {
      FoldIsCurrent(events, n - 1, id);
      ApplyToOne(events, n, Fold(events, n - 1).value, Fold(events, n).value, id);
    }
  }

  /** Since the staging, a revision is the current one or a lower one. */
  predicate NoneHigher(events: seq<Event>, id: string, i: nat, revision: int) {
    forall k | i < k < |events| && Revises(events[k], id) ::
      Get(events[k], "revision") == Some(Int(revision)) || RevisedBelow(events, k, revision)
  }

  lemma CurrentIsHighest(events: seq<Event>, id: string, s: Stage, i: nat, j: nat)
    requires CurrentAt(events, |events|, id, s, i, j)
    ensures NoneHigher(events, id, i, s.revision) && TextField(events[i], "executor") == Some(s.executor)
  {
    RecordedFields(events[j], id, s.revision, TextField(events[i], "executor"));
    hide Recorded, TextField, Revises, RevisedBelow;
  }

  /** An id staged once keeps that staging's executor and its highest revision since. */
  lemma SingleStaging(events: seq<Event>, id: string, i: nat)
    requires Fold(events, |events|).Some? && i < |events| && Stages(events[i], id)
    requires forall k | 0 <= k < |events| && Stages(events[k], id) :: k == i
    ensures var l := Fold(events, |events|).value;
      && id in l.stages
      && TextField(events[i], "executor") == Some(l.stages[id].executor)
      && NoneHigher(events, id, i, l.stages[id].revision)
      && exists j | i <= j < |events| :: CurrentAt(events, |events|, id, l.stages[id], i, j)
  {
    hide Fold, Recorded, TextField, Stages, Revises, RevisedBelow, RevisionAt, NoneHigher;
    FoldIsCurrent(events, |events|, id);
    var s := Fold(events, |events|).value.stages[id];
    var i': nat, j: nat :| CurrentAt(events, |events|, id, s, i', j);
    assert Stages(events[i'], id);
    CurrentIsHighest(events, id, s, i', j);
  }

  // ------------------------------------------------------- the fields of a stage

  predicate HasText(e: Event, key: string) {
    match Get(e, key) case Some(Str(x)) => x != "" case _ => false
  }

  predicate HasDigest(e: Event, key: string) {
    match Get(e, key)
    case Some(Str(x)) => |x| == 64 && forall i | 0 <= i < 64 :: x[i] in "0123456789abcdef"
    case _ => false
  }

  /** The fields every record of a stage must have. */
  predicate HasRecord(e: Event) {
    HasDigest(e, "proposal_digest") && HasDigest(e, "target_digest") && HasText(e, "target_ref")
  }

  /** Which events stage and revise an effect, by their fields. */
  lemma EventsByFields(e: Event, id: string)
    ensures Stages(e, id) <==> e.kind == "effect.staged" && Get(e, "stage_id") == Some(Str(id)) && id != ""
    ensures Revises(e, id) <==> e.kind == "effect.revised" && Get(e, "stage_id") == Some(Str(id))
  {
  }

  lemma DigestByFields(e: Event, key: string)
    ensures DigestField(e, key).Some? <==> HasDigest(e, key)
    ensures DigestField(e, key).Some? ==> Get(e, key) == Some(Str(DigestField(e, key).value))
  {
    match Get(e, key)
    case Some(Str(x)) =>
      assert forall c: char :: c in "0123456789abcdef" <==> '0' <= c <= '9' || 'a' <= c <= 'f';
    case _ =>
  }

  lemma RecordedByFields(e: Event, id: string, revision: int, executor: Option<string>)
    ensures Recorded(e, id, revision, executor).Some? <==> HasRecord(e) && executor.Some?
    ensures match Recorded(e, id, revision, executor)
      case Some(s) =>
        && Get(e, "proposal_digest") == Some(Str(s.proposal)) && Get(e, "target_digest") == Some(Str(s.target))
        && Get(e, "target_ref") == Some(Str(s.ref)) && executor == Some(s.executor)
      case None => true
  {
    DigestByFields(e, "proposal_digest");
    DigestByFields(e, "target_digest");
    hide DigestField, HasDigest;
  }

  /** The stage, field by field: digests and target from its last record j, executor from its last staging i. */
  predicate TakenFrom(events: seq<Event>, s: Stage, i: nat, j: nat)
    requires i < |events| && j < |events|
  {
    && Get(events[j], "proposal_digest") == Some(Str(s.proposal))
    && Get(events[j], "target_digest") == Some(Str(s.target))
    && Get(events[j], "target_ref") == Some(Str(s.ref))
    && Get(events[i], "executor") == Some(Str(s.executor))
    && (if i == j then s.revision == 1 else Get(events[j], "revision") == Some(Int(s.revision)))
  }

  lemma CurrentIsTaken(events: seq<Event>, n: nat, id: string, s: Stage, i: nat, j: nat)
    requires n <= |events| && CurrentAt(events, n, id, s, i, j)
    ensures TakenFrom(events, s, i, j)
  {
    RecordedByFields(events[j], id, s.revision, TextField(events[i], "executor"));
    hide Recorded;
  }

  /** A listed stage is what its last staging and its last record say. */
  lemma StageIsTaken(events: seq<Event>, id: string)
    requires Fold(events, |events|).Some? && id in Fold(events, |events|).value.stages
    ensures exists i: nat, j: nat | LastRecord(events, |events|, id, i, j) ::
      TakenFrom(events, Fold(events, |events|).value.stages[id], i, j)
  {
    hide Fold;
    FoldIsCurrent(events, |events|, id);
    var s := Fold(events, |events|).value.stages[id];
    var i: nat, j: nat :| CurrentAt(events, |events|, id, s, i, j);
    CurrentIsTaken(events, |events|, id, s, i, j);
    assert LastRecord(events, |events|, id, i, j);
  }

  // ---------------------------------------------------------- when the fold fails

  /** A staging of a named effect that lacks a field. */
  predicate BadStaging(e: Event) {
    e.kind == "effect.staged" && HasText(e, "stage_id") && !(HasRecord(e) && HasText(e, "executor"))
  }

  /** A revision that does not raise the revision recorded at j, or lacks a field. */
  predicate BadRevision(events: seq<Event>, n: nat, i: nat, j: nat)
    requires n < |events| && i < |events| && j < |events|
  {
    !(&& HasRecord(events[n])
      && match (Get(events[n], "revision"), if i == j then Some(Int(1)) else Get(events[j], "revision"))
         case (Some(Int(r)), Some(Int(q))) => r > q
         case _ => false)
  }

  /** Event n breaks the ledger, given what was staged and revised before it. */
  ghost predicate Breaks(events: seq<Event>, n: nat)
    requires n < |events|
  {
    || BadStaging(events[n])
    || exists id, i: nat, j: nat | Revises(events[n], id) && LastRecord(events, n, id, i, j) ::
         BadRevision(events, n, i, j)
  }

  lemma BadStagingFails(l: Ledger, e: Event)
    requires e.kind == "effect.staged"
    ensures Apply(l, e).None? <==> BadStaging(e)
  {
    if TextField(e, "stage_id").Some? {
      RecordedByFields(e, TextField(e, "stage_id").value, 1, TextField(e, "executor"));
    }
    hide Recorded, HasRecord;
  }

  lemma BadRevisionFails(events: seq<Event>, n: nat, l: Ledger, id: string, i: nat, j: nat)
    requires n < |events| && Revises(events[n], id) && id in l.stages
    requires CurrentAt(events, n, id, l.stages[id], i, j)
    ensures Apply(l, events[n]).None? <==> BadRevision(events, n, i, j)
  {
    var e, s := events[n], l.stages[id];
    CurrentIsTaken(events, n, id, s, i, j);
    match Get(e, "revision")
    case Some(Int(r)) => RecordedByFields(e, id, r, Some(s.executor));
    case _ =>
    hide Recorded, HasRecord, TextField;
  }

  /** Where the ledger is sound so far, the next event breaks it exactly when it should. */
  lemma NextFails(events: seq<Event>, n: nat)
    requires n < |events| && Fold(events, n).Some?
    ensures Fold(events, n + 1).None? <==> Breaks(events, n)
  {
    var l, e := Fold(events, n).value, events[n];
    assert Fold(events, n + 1) == Apply(l, e);
    if e.kind == STAGED {
      BadStagingFails(l, e);
    } else if e.kind == REVISED && Get(e, "stage_id").Some? && Get(e, "stage_id").value.Str? {
      var id := Get(e, "stage_id").value.s;
      hide Fold;
      FoldIsCurrent(events, n, id);
      if id in l.stages {
        var i: nat, j: nat :| CurrentAt(events, n, id, l.stages[id], i, j);
        BadRevisionFails(events, n, l, id, i, j);
        hide Apply;
        assert Revises(e, id) && LastRecord(events, n, id, i, j);
        forall i': nat, j': nat | LastRecord(events, n, id, i', j') ensures i' == i && j' == j {
          RecordIsOne(events, n, id, i, j, i', j');
        }
      } else {
        assert Apply(l, e) == Some(l);
        hide Apply;
        assert forall i: nat, j: nat :: !LastRecord(events, n, id, i, j);
      }
    }
  }

  lemma RecordIsOne(events: seq<Event>, n: nat, id: string, i: nat, j: nat, i': nat, j': nat)
    requires n <= |events| && LastRecord(events, n, id, i, j) && LastRecord(events, n, id, i', j')
    ensures i' == i && j' == j
  {
    hide TextField;
    assert i' == i;
  }

  /** The fold fails exactly when some event breaks the ledger. */
  lemma FoldFails(events: seq<Event>)
    ensures Fold(events, |events|).None? <==> exists n | 0 <= n < |events| :: Breaks(events, n)
  {
    hide Breaks, Fold;
    FailsBefore(events, |events|);
    if n :| 0 <= n < |events| && Breaks(events, n) {
      BrokenFails(events, n);
    }
  }

  lemma BrokenFails(events: seq<Event>, n: nat)
    requires n < |events| && Breaks(events, n)
    ensures Fold(events, |events|).None?
  {
    hide Breaks, Fold;
    if Fold(events, n).None? {
      FailureStays(events, n);
    } else {
      NextFails(events, n);
      FailureStays(events, n + 1);
    }
  }

  lemma {:induction false} FailsBefore(events: seq<Event>, n: nat)
    requires n <= |events|
    ensures Fold(events, n).None? ==> exists k | 0 <= k < n :: Breaks(events, k)
    decreases n
  {
    hide Breaks, Apply;
    if n > 0 && Fold(events, n).None? {
      if Fold(events, n - 1).None? {
        FailsBefore(events, n - 1);
      } else {
        NextFails(events, n - 1);
      }
    }
  }

  // ------------------------------------------------------------------- decisions

  predicate Concerns(e: Event, kind: string, s: Stage) {
    e.kind == kind && Get(e, "stage_id") == Some(Str(s.id))
  }

  /** A decision on the stage, of the kind that is looked for. */
  predicate Decides(e: Event, s: Stage, decision: string) {
    Concerns(e, DECIDED, s) && Get(e, "decision") == Some(Str(decision))
  }

  /** The decision is about exactly this revision and both digests. */
  predicate IsExact(e: Event, s: Stage) {
    && Get(e, "revision") == Some(Int(s.revision))
    && Get(e, "proposal_digest") == Some(Str(s.proposal))
    && Get(e, "target_digest") == Some(Str(s.target))
  }

  /** All such decisions are exact, and every application carries the revision and follows one. */
  predicate Orderly(events: seq<Event>, s: Stage, decision: string, n: nat)
    requires n <= |events|
  {
    forall k | 0 <= k < n ::
      && (Decides(events[k], s, decision) ==> IsExact(events[k], s))
      && (Concerns(events[k], APPLIED, s) ==>
            && Get(events[k], "revision") == Some(Int(s.revision))
            && exists j | 0 <= j < k :: Decides(events[j], s, decision))
  }

  predicate Confirmed(events: seq<Event>, s: Stage, decision: string, applied: bool) {
    && Orderly(events, s, decision, |events|)
    && (exists k | 0 <= k < |events| :: Decides(events[k], s, decision))
    && (applied <==> exists k | 0 <= k < |events| :: Concerns(events[k], APPLIED, s))
  }

  /** The event is of this kind and about this effect. */
  predicate About(e: Event, kind: string, id: string) { e.kind == kind && Get(e, "stage_id") == Some(Str(id)) }

  predicate DecidesFor(e: Event, id: string, decision: string) {
    About(e, "effect.decision_recorded", id) && Get(e, "decision") == Some(Str(decision))
  }

  /**
   * What the check demands, by fields: every such decision carries the stage's revision
   * and both digests, there is one, every application carries the revision and comes
   * after one, and there are applications exactly when there should be.
   */
  predicate Demanded(events: seq<Event>, s: Stage, decision: string, applied: bool) {
    && (forall k | 0 <= k < |events| && DecidesFor(events[k], s.id, decision) ::
          && Get(events[k], "revision") == Some(Int(s.revision))
          && Get(events[k], "proposal_digest") == Some(Str(s.proposal))
          && Get(events[k], "target_digest") == Some(Str(s.target)))
    && (forall k | 0 <= k < |events| && About(events[k], "effect.applied", s.id) ::
          && Get(events[k], "revision") == Some(Int(s.revision))
          && exists j | 0 <= j < k :: DecidesFor(events[j], s.id, decision))
    && (exists k | 0 <= k < |events| :: DecidesFor(events[k], s.id, decision))
    && (applied <==> exists k | 0 <= k < |events| :: About(events[k], "effect.applied", s.id))
  }

  lemma ConfirmedIsDemanded(events: seq<Event>, s: Stage, decision: string, applied: bool)
    ensures Confirmed(events, s, decision, applied) <==> Demanded(events, s, decision, applied)
  {
    forall e: Event
      ensures Decides(e, s, decision) <==> DecidesFor(e, s.id, decision)
      ensures Concerns(e, APPLIED, s) <==> About(e, "effect.applied", s.id) { }
    if Confirmed(events, s, decision, applied) {
      forall k | 0 <= k < |events| && DecidesFor(events[k], s.id, decision) ensures IsExact(events[k], s) {
        assert Decides(events[k], s, decision);
      }
    }
    hide Decides, Concerns, DecidesFor, About;
  }

  /**
   * If the check passes for a stage the log holds, every application of that effect
   * carries the revision of its last record and follows a decision on that revision
   * with the two digests of that record.
   */
  lemma AppliedAsDecided(events: seq<Event>, id: string, decision: string, applied: bool, k: nat)
    requires Fold(events, |events|).Some? && id in Fold(events, |events|).value.stages
    requires Confirmed(events, Fold(events, |events|).value.stages[id], decision, applied)
    requires k < |events| && About(events[k], "effect.applied", id)
    ensures exists i: nat, j: nat, m: nat | LastRecord(events, |events|, id, i, j) && m < k ::
      && DecidesFor(events[m], id, decision)
      && Get(events[m], "proposal_digest") == Get(events[j], "proposal_digest")
      && Get(events[m], "target_digest") == Get(events[j], "target_digest")
      && Get(events[k], "revision") == Get(events[m], "revision")
           == if i == j then Some(Int(1)) else Get(events[j], "revision")
  {
    hide Fold;
    var s := Fold(events, |events|).value.stages[id];
    FoldIsCurrent(events, |events|, id);
    ConfirmedIsDemanded(events, s, decision, applied);
    StageIsTaken(events, id);
    hide Confirmed, DecidesFor, LastRecord, Get, About;
    var i: nat, j: nat :| LastRecord(events, |events|, id, i, j) && TakenFrom(events, s, i, j);
    var m: nat :| m < k && DecidesFor(events[m], s.id, decision);
  }

  // ----------------------------------------------------------- the code itself

  predicate IsStaged(events: seq<Event>, id: string) { exists k | 0 <= k < |events| :: Stages(events[k], id) }

  predicate IsListed(stages: seq<Stage>, id: string) { exists s | s in stages :: s.id == id }

  /** `i` is the first staging of id among the first n events. */
  predicate FirstStaging(events: seq<Event>, n: nat, id: string, i: nat)
    requires n <= |events|
  {
    i < n && Stages(events[i], id) && forall k | 0 <= k < i :: !Stages(events[k], id)
  }

  /** The first id was first staged before the second. */
  ghost predicate StagedBefore(events: seq<Event>, n: nat, a: string, b: string)
    requires n <= |events|
  {
    exists i: nat, j: nat | i < j :: FirstStaging(events, n, a, i) && FirstStaging(events, n, b, j)
  }

  ghost predicate EverStaged(events: seq<Event>, n: nat, id: string)
    requires n <= |events|
  {
    exists i: nat :: FirstStaging(events, n, id, i)
  }

  ghost predicate InStagingOrder(events: seq<Event>, n: nat, ids: seq<string>)
    requires n <= |events|
  {
    && (forall a, b | 0 <= a < b < |ids| :: StagedBefore(events, n, ids[a], ids[b]))
    && (forall a | 0 <= a < |ids| :: EverStaged(events, n, ids[a]))
  }

  /** No id is staged before itself, so an order by first staging lists each id once. */
  lemma OnceEach(events: seq<Event>, n: nat, ids: seq<string>)
    requires n <= |events| && InStagingOrder(events, n, ids)
    ensures forall a, b | 0 <= a < b < |ids| :: ids[a] != ids[b]
  {
    hide Stages;
    forall a, b | 0 <= a < b < |ids| ensures ids[a] != ids[b] {
      assert StagedBefore(events, n, ids[a], ids[b]);
    }
  }

  function IdsOf(stages: seq<Stage>): seq<string> {
    seq(|stages|, i requires 0 <= i < |stages| => stages[i].id)
  }

  /** The stages of the fold, one per staged id, by first staging; None when an assertion fails. */
  method EffectStages(events: seq<Event>) returns (stages: Option<seq<Stage>>)
    ensures stages.None? <==> Fold(events, |events|).None?
    ensures stages.None? <==> exists n | 0 <= n < |events| :: Breaks(events, n)
    ensures stages.Some? ==> forall s | s in stages.value ::
      exists i: nat, j: nat | LastRecord(events, |events|, s.id, i, j) :: TakenFrom(events, s, i, j)
    ensures stages.Some? ==> forall id :: IsStaged(events, id) <==> IsListed(stages.value, id)
    ensures stages.Some? ==> InStagingOrder(events, |events|, IdsOf(stages.value))
    ensures stages.Some? ==> forall i, j | 0 <= i < j < |stages.value| :: stages.value[i].id != stages.value[j].id
    ensures stages.Some? ==> var l := Fold(events, |events|).value;
      forall s | s in stages.value :: s.id in l.stages && s == l.stages[s.id]
  {
    FoldFails(events);
    var ledger := FoldEvents(events);
    if ledger.None? {
      return None;
    }
    var order, held := ledger.value.order, ledger.value.stages;
    var list := seq(|order|, i requires 0 <= i < |order| => held[order[i]]);
    stages := Some(list);
    hide Fold, InStagingOrder, IsStaged, IsListed, Breaks, LastRecord, TakenFrom;
    ListReads(events, ledger.value, list);
    ListIsTaken(events, ledger.value, list);
    OnceEach(events, |events|, order);
  }

  /** The loop over the log. */
  method FoldEvents(events: seq<Event>) returns (ledger: Option<Ledger>)
    ensures ledger == Fold(events, |events|)
    ensures ledger.Some? ==> Ordered(ledger.value) && InStagingOrder(events, |events|, ledger.value.order)
  {
    var current := Ledger([], map[]);
    for i := 0 to |events|
      invariant Fold(events, i) == Some(current)
      invariant Ordered(current) && InStagingOrder(events, i, current.order)
    {
      hide Apply, InStagingOrder, Ordered;
      var next := Apply(current, events[i]);
      if next.None? {
        FailureStays(events, i + 1);
        return None;
      }
      ApplyKeepsOrder(events, i + 1, current, next.value);
      current := next.value;
    }
    return Some(current);
  }

  /** Every stage read off the ledger is taken from its last staging and its last record. */
  lemma ListIsTaken(events: seq<Event>, ledger: Ledger, list: seq<Stage>)
    requires Fold(events, |events|) == Some(ledger) && Ordered(ledger) && |list| == |ledger.order|
    requires forall i | 0 <= i < |list| :: list[i] == ledger.stages[ledger.order[i]]
    requires forall i | 0 <= i < |list| :: list[i].id == ledger.order[i]
    ensures forall s | s in list ::
      exists i: nat, j: nat | LastRecord(events, |events|, s.id, i, j) :: TakenFrom(events, s, i, j)
  {
    hide Fold, LastStaging, TakenFrom;
    forall s | s in list
      ensures exists i: nat, j: nat | LastRecord(events, |events|, s.id, i, j) :: TakenFrom(events, s, i, j)
    {
      var k :| 0 <= k < |list| && list[k] == s;
      StageIsTaken(events, ledger.order[k]);
    }
  }

  /** Reading the ledger off in order gives its ids in order, and exactly the staged ones. */
  lemma ListReads(events: seq<Event>, ledger: Ledger, list: seq<Stage>)
    requires Fold(events, |events|) == Some(ledger) && Ordered(ledger) && |list| == |ledger.order|
    requires forall i | 0 <= i < |list| :: list[i] == ledger.stages[ledger.order[i]]
    ensures IdsOf(list) == ledger.order
    ensures forall i | 0 <= i < |list| :: list[i].id == ledger.order[i]
    ensures forall id :: IsStaged(events, id) <==> IsListed(list, id)
  {
    hide Stages, IsCurrent, Fold;
    forall i | 0 <= i < |list| ensures list[i].id == ledger.order[i] {
      FoldIsCurrent(events, |events|, ledger.order[i]);
    }
    forall id ensures IsStaged(events, id) <==> IsListed(list, id) {
      FoldIsCurrent(events, |events|, id);
      if id in ledger.stages {
        var i :| 0 <= i < |ledger.order| && ledger.order[i] == id;
        assert list[i] in list && list[i].id == id;
      }
      if s :| s in list && s.id == id {
        var i :| 0 <= i < |list| && list[i] == s;
      }
    }
  }

  /** The order lists exactly the keys. */
  predicate Ordered(l: Ledger) {
    && (forall i | 0 <= i < |l.order| :: l.order[i] in l.stages)
    && (forall id | id in l.stages :: id in l.order)
  }

  /** An event adds at most one id to the order: the one it stages, if that is new. */
  lemma ApplyOrder(l: Ledger, e: Event)
    requires Ordered(l) && Apply(l, e).Some?
    ensures Ordered(Apply(l, e).value)
    ensures var order := Apply(l, e).value.order;
      order == l.order || exists id :: Stages(e, id) && id !in l.stages && order == l.order + [id]
  {
    hide TextField;
    if e.kind == STAGED && TextField(e, "stage_id").Some? {
      RecordedFields(e, TextField(e, "stage_id").value, 1, TextField(e, "executor"));
    } else if e.kind == REVISED {
      match Get(e, "stage_id")
      case Some(Str(id)) =>
        if id in l.stages {
          RecordedFields(e, id, Get(e, "revision").value.n, Some(l.stages[id].executor));
        }
      case _ =>
    }
    hide Recorded;
  }

  lemma ApplyKeepsOrder(events: seq<Event>, n: nat, l: Ledger, l': Ledger)
    requires 0 < n <= |events| && Fold(events, n - 1) == Some(l) && Apply(l, events[n - 1]) == Some(l')
    requires Ordered(l) && InStagingOrder(events, n - 1, l.order)
    ensures Ordered(l') && InStagingOrder(events, n, l'.order)
  {
    ApplyOrder(l, events[n - 1]);
    StillInOrder(events, n, l.order);
    hide Apply, Fold, Stages, Ordered, InStagingOrder, IsCurrent;
    if l'.order != l.order {
      var id :| Stages(events[n - 1], id) && id !in l.stages && l'.order == l.order + [id];
      FoldIsCurrent(events, n - 1, id);
      NewestLast(events, n, l.order, id);
    }
  }

  /** An id first staged by the last event comes after all others. */
  lemma NewestLast(events: seq<Event>, n: nat, ids: seq<string>, id: string)
    requires 0 < n <= |events| && InStagingOrder(events, n - 1, ids) && InStagingOrder(events, n, ids)
    requires Stages(events[n - 1], id) && forall k | 0 <= k < n - 1 :: !Stages(events[k], id)
    ensures InStagingOrder(events, n, ids + [id])
  {
    hide Stages;
    assert FirstStaging(events, n, id, n - 1) && EverStaged(events, n, id);
    forall a | 0 <= a < |ids| ensures StagedBefore(events, n, ids[a], id) {
      assert EverStaged(events, n - 1, ids[a]);
      var i: nat :| FirstStaging(events, n - 1, ids[a], i);
      assert FirstStaging(events, n, ids[a], i);
    }
    hide StagedBefore, EverStaged;
  }

  lemma StillInOrder(events: seq<Event>, n: nat, ids: seq<string>)
    requires 0 < n <= |events| && InStagingOrder(events, n - 1, ids)
    ensures InStagingOrder(events, n, ids)
  {
    hide Stages;
    forall a, b | 0 <= a < b < |ids| ensures StagedBefore(events, n, ids[a], ids[b]) {
      assert StagedBefore(events, n - 1, ids[a], ids[b]);
      var i: nat, j: nat :| i < j && FirstStaging(events, n - 1, ids[a], i) && FirstStaging(events, n - 1, ids[b], j);
      assert FirstStaging(events, n, ids[a], i) && FirstStaging(events, n, ids[b], j);
    }
    forall a | 0 <= a < |ids| ensures EverStaged(events, n, ids[a]) {
      assert EverStaged(events, n - 1, ids[a]);
      var i: nat :| FirstStaging(events, n - 1, ids[a], i);
      assert FirstStaging(events, n, ids[a], i);
    }
  }

  lemma {:induction false} FailureStays(events: seq<Event>, n: nat)
    requires n <= |events| && Fold(events, n).None?
    ensures Fold(events, |events|).None?
    decreases |events| - n
  {
    if n < |events| {
      FailureStays(events, n + 1);
    }
  }

  /** The check on one stage: true when no assertion fails. */
  method AssertStageDecision(events: seq<Event>, stage: Stage, decision: string, applied: bool) returns (passes: bool)
    ensures passes <==> Confirmed(events, stage, decision, applied)
    ensures passes <==> Demanded(events, stage, decision, applied)
  {
    ConfirmedIsDemanded(events, stage, decision, applied);
    hide Demanded;
    var decisionSeen := false;
    var applySeen := false;
    for i := 0 to |events|
      invariant Orderly(events, stage, decision, i)
      invariant decisionSeen <==> exists k | 0 <= k < i :: Decides(events[k], stage, decision)
      invariant applySeen <==> exists k | 0 <= k < i :: Concerns(events[k], APPLIED, stage)
    {
      var e := events[i];
      if Get(e, "stage_id") != Some(Str(stage.id)) {
        continue;
      }
      if e.kind == DECIDED {
        if Get(e, "decision") != Some(Str(decision)) {
          continue;
        }
        if !IsExact(e, stage) {
          return false;
        }
        decisionSeen := true;
      } else if e.kind == APPLIED {
        if !decisionSeen || Get(e, "revision") != Some(Int(stage.revision)) {
          return false;
        }
        applySeen := true;
      }
    }
    return decisionSeen && applySeen == applied;
  }
}
