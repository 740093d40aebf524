/** Every run of small steps is a history of whole transactions: the refinement
    that carries all results about histories to interleaved, failing clients. */
module ClientRuns {
  import opened Text
  import opened Events
  import opened Reads
  import opened Declarations
  import opened Lifecycle
  import opened Histories
  import opened Evidence
  import opened SqliteStore
  import opened Clients
  import Authority
  import ChainExact
  import Motions

  // ----- The inductive invariant -----

  ghost predicate JobOk(cat: Catalog, t: set<Row>, job: Job, template: Row)
  {
    match job
    case ProposeJob(d, _) =>
      && Declares(cat, d) && TripleOf(template) == TripleFor(d, template.scope) && ScopeAllowed(d, template.scope)
      && template.fromPosition == Fold(t, d, template.scope)
      && DeclaredTransition(d, template.fromPosition, template.toPosition)
    case RejectJob(p) => template == p && Open(t, p)
    case ApproveJob(d, p) =>
      && template == p && Open(t, p) && Declares(cat, d) && d.task == p.task && d.version == p.declarationVersion
      && DeclaredTransition(d, p.fromPosition, p.toPosition) && !Stale(t, p)
    case DemoteJob(d, _) =>
      && Declares(cat, d) && TripleOf(template) == TripleFor(d, template.scope) && ScopeAllowed(d, template.scope)
      && template.fromPosition == Fold(t, d, template.scope)
      && Edge(template.fromPosition, template.toPosition) == d.demotion
  }

  ghost predicate PhaseOk(cat: Catalog, t: set<Row>, current: map<string, Declaration>, ph: Phase)
  {
    match ph
    case Idle => true
    case Proposing(d, scope, _, _, _) => Declares(cat, d) && ScopeAllowed(d, scope)
    case ProposeLocked(d, scope, _, _) => Declares(cat, d) && ScopeAllowed(d, scope)
    case ApproveLocked(_) => true
    case EvidenceVerified(p) => Open(t, p)
    case RejectLocked(_) => true
    case Demoting(d, scope) => Declares(cat, d) && ScopeAllowed(d, scope) && d.task in current && current[d.task] == d
    case DemoteLocked(d, scope) =>
      Declares(cat, d) && ScopeAllowed(d, scope) && d.task in current && current[d.task] == d
    case DemoteStoring(d, scope, _, _) =>
      Declares(cat, d) && ScopeAllowed(d, scope) && Fold(t, d, scope) == d.demotion.fromPosition
    case Inserting(job, template, written) =>
      && JobOk(cat, t, job, template) && |written| <= |KindsOfJob(job)|
      && (forall i :: 0 <= i < |written| ==> Copies(written[i], template, KindsOfJob(job)[i]))
      && Admits(t, RowsOf(written))
  }

  ghost predicate CurrentOk(cat: Catalog, current: map<string, Declaration>)
  {
    forall task :: task in current ==> current[task].task == task && Declares(cat, current[task])
  }

  /** Exactly the lock holder is in a locked phase. */
  ghost predicate LockOk(s: System)
  {
    forall c: nat {:trigger PhaseOf(s, c)} :: HoldsLock(PhaseOf(s, c)) <==> s.writer == Some(c)
  }

  ghost predicate PhasesOk(cat: Catalog, s: System)
  {
    forall c: nat {:trigger PhaseOf(s, c)} :: PhaseOk(cat, s.rows, s.current, PhaseOf(s, c))
  }

  /** The committed rows are those of a legal history of whole transactions. */
  ghost predicate Refines(cat: Catalog, s: System)
  {
    History(cat, s.log) && After({}, s.log) == s.rows
  }

  ghost predicate Sane(cat: Catalog, s: System)
  {
    Accepted(cat) && CurrentOk(cat, s.current) && LockOk(s) && PhasesOk(cat, s) && Refines(cat, s)
  }

  lemma JobCommits(cat: Catalog, t: set<Row>, job: Job, template: Row, written: seq<Row>)
    requires JobOk(cat, t, job, template) && |written| == |KindsOfJob(job)|
    requires forall i :: 0 <= i < |written| ==> Copies(written[i], template, KindsOfJob(job)[i])
    requires Admits(t, RowsOf(written))
    ensures NewRows(ActionOf(job, written)) == RowsOf(written)
    ensures Step(cat, t, ActionOf(job, written))
  {
    assert Copies(written[0], template, KindsOfJob(job)[0]);
    if job.ApproveJob? {
      assert written == [written[0], written[1]];
      assert Copies(written[1], template, KindsOfJob(job)[1]);
    } else if job.DemoteJob? {
      assert written == [written[0], written[1], written[2]];
      assert Copies(written[1], template, KindsOfJob(job)[1]) && Copies(written[2], template, KindsOfJob(job)[2]);
    } else {
      assert written == [written[0]];
    }
  }

  // ----- Each step keeps it -----

  /** Everything but a commit leaves the committed rows alone. */
  lemma RowsStay(cat: Catalog, hash: Digest, s: System, c: nat, l: Label, s': System)
    requires Next(cat, hash, s, c, l, s') && !l.Commit?
    ensures s'.rows == s.rows && s'.log == s.log && s'.bound == s.bound
    ensures !l.Switch? ==> s'.current == s.current
  {
  }

  lemma OthersStay(cat: Catalog, hash: Digest, s: System, c: nat, l: Label, s': System, other: nat)
    requires Next(cat, hash, s, c, l, s')
    requires other != c || l.Switch? || l.Publish?
    ensures PhaseOf(s', other) == PhaseOf(s, other)
  {
  }

  lemma OneMore(t: set<Row>, written: seq<Row>, row: Row)
    requires Admits(t, RowsOf(written)) && Admits(t + RowsOf(written), {row})
    ensures Admits(t, RowsOf(written + [row]))
  {
    RowsOfConcat(written, [row]);
    assert RowsOf([row]) == {row};
    assert t + RowsOf(written + [row]) == t + RowsOf(written) + {row};
  }

  lemma InsertKept(cat: Catalog, t: set<Row>, current: map<string, Declaration>, ph: Phase, row: Row)
    requires ph.Inserting? && PhaseOk(cat, t, current, ph)
    requires |ph.written| < |KindsOfJob(ph.job)| && Copies(row, ph.template, KindsOfJob(ph.job)[|ph.written|])
    requires Admits(t + RowsOf(ph.written), {row})
    ensures PhaseOk(cat, t, current, ph.(written := ph.written + [row]))
  {
    OneMore(t, ph.written, row);
  }

  lemma DecideKept(cat: Catalog, hash: Digest, s: System, ph: Phase, job: Job, template: Row)
    requires CurrentOk(cat, s.current) && Table(s.rows) && PhaseOk(cat, s.rows, s.current, ph)
    requires MayDecide(hash, s, ph, job, template)
    ensures PhaseOk(cat, s.rows, s.current, Inserting(job, template, []))
  {
    assert RowsOf([]) == {};
    assert s.rows + {} == s.rows;
    assert template.scope == TripleOf(template).scope;
  }

  lemma PhaseKept(cat: Catalog, hash: Digest, s: System, c: nat, l: Label, s': System)
    requires CurrentOk(cat, s.current) && Table(s.rows) && PhaseOk(cat, s.rows, s.current, PhaseOf(s, c))
    requires ClientStep(cat, hash, s, c, l, s') && !l.Commit?
    ensures PhaseOk(cat, s.rows, s.current, PhaseOf(s', c))
  {
    match l
    case Insert(row) => InsertKept(cat, s.rows, s.current, PhaseOf(s, c), row);
    case Decide(job, template) => DecideKept(cat, hash, s, PhaseOf(s, c), job, template);
    case _ =>
  }

  lemma CommitKept(cat: Catalog, hash: Digest, s: System, c: nat, s': System)
    requires Sane(cat, s) && ClientStep(cat, hash, s, c, Commit, s')
    ensures Refines(cat, s')
    ensures var ph := PhaseOf(s, c);
            && ph.Inserting? && |ph.written| == |KindsOfJob(ph.job)|
            && Step(cat, s.rows, ActionOf(ph.job, ph.written))
            && s'.log == s.log + [ActionOf(ph.job, ph.written)]
            && s'.rows == s.rows + NewRows(ActionOf(ph.job, ph.written))
  {
    var ph := PhaseOf(s, c);
    JobCommits(cat, s.rows, ph.job, ph.template, ph.written);
    RunAppend(cat, {}, s.log, ActionOf(ph.job, ph.written));
  }

  /** Only locked phases rely on the committed rows, and only c's is locked. */
  lemma CommitPhases(cat: Catalog, hash: Digest, s: System, c: nat, s': System)
    requires LockOk(s) && PhasesOk(cat, s) && ClientStep(cat, hash, s, c, Commit, s')
    ensures PhasesOk(cat, s')
  {
    assert HoldsLock(PhaseOf(s, c));
    forall o: nat ensures PhaseOk(cat, s'.rows, s'.current, PhaseOf(s', o)) {
      if o != c {
        OthersStay(cat, hash, s, c, Commit, s', o);
        assert !HoldsLock(PhaseOf(s, o));
        assert PhaseOk(cat, s.rows, s.current, PhaseOf(s, o));
      }
    }
  }

  lemma LockKept(cat: Catalog, hash: Digest, s: System, c: nat, l: Label, s': System)
    requires LockOk(s) && Next(cat, hash, s, c, l, s')
    ensures LockOk(s')
  {
    assert HoldsLock(PhaseOf(s, c)) <==> s.writer == Some(c);
    forall o: nat ensures HoldsLock(PhaseOf(s', o)) <==> s'.writer == Some(o) {
      assert HoldsLock(PhaseOf(s, o)) <==> s.writer == Some(o);
      if o != c || l.Switch? || l.Publish? { OthersStay(cat, hash, s, c, l, s', o); }
    }
  }

  lemma SwitchKept(cat: Catalog, hash: Digest, s: System, c: nat, d: Declaration, s': System)
    requires CurrentOk(cat, s.current) && PhasesOk(cat, s) && Next(cat, hash, s, c, Switch(d), s')
    ensures CurrentOk(cat, s'.current) && PhasesOk(cat, s')
  {
    forall o: nat ensures PhaseOk(cat, s'.rows, s'.current, PhaseOf(s', o)) {
      OthersStay(cat, hash, s, c, Switch(d), s', o);
      assert PhaseOk(cat, s.rows, s.current, PhaseOf(s, o));
    }
  }

  lemma PhasesKept(cat: Catalog, hash: Digest, s: System, c: nat, l: Label, s': System)
    requires CurrentOk(cat, s.current) && Table(s.rows) && PhasesOk(cat, s)
    requires Next(cat, hash, s, c, l, s') && !l.Commit? && !l.Switch?
    ensures PhasesOk(cat, s')
  {
    RowsStay(cat, hash, s, c, l, s');
    forall o: nat ensures PhaseOk(cat, s'.rows, s'.current, PhaseOf(s', o)) {
      assert PhaseOk(cat, s.rows, s.current, PhaseOf(s, o));
      if o == c && !l.Publish? { PhaseKept(cat, hash, s, c, l, s'); } else { OthersStay(cat, hash, s, c, l, s', o); }
    }
  }

  lemma QuietStep(cat: Catalog, hash: Digest, s: System, c: nat, l: Label, s': System)
    requires Sane(cat, s) && Next(cat, hash, s, c, l, s') && !l.Commit? && !l.Switch?
    ensures Sane(cat, s')
  {
    LockKept(cat, hash, s, c, l, s');
    InvRun(cat, {}, s.log);
    PhasesKept(cat, hash, s, c, l, s');
    RowsStay(cat, hash, s, c, l, s');
  }

  lemma SwitchStep(cat: Catalog, hash: Digest, s: System, c: nat, d: Declaration, s': System)
    requires Sane(cat, s) && Next(cat, hash, s, c, Switch(d), s')
    ensures Sane(cat, s')
  {
    LockKept(cat, hash, s, c, Switch(d), s');
    SwitchKept(cat, hash, s, c, d, s');
    RowsStay(cat, hash, s, c, Switch(d), s');
  }

  lemma CommitStep(cat: Catalog, hash: Digest, s: System, c: nat, s': System)
    requires Sane(cat, s) && Next(cat, hash, s, c, Commit, s')
    ensures Sane(cat, s')
  {
    LockKept(cat, hash, s, c, Commit, s');
    CommitKept(cat, hash, s, c, s');
    CommitPhases(cat, hash, s, c, s');
  }

  lemma SaneStep(cat: Catalog, hash: Digest, s: System, c: nat, l: Label, s': System)
    requires Sane(cat, s) && Next(cat, hash, s, c, l, s')
    ensures Sane(cat, s')
  {
    if l.Switch? {
      SwitchStep(cat, hash, s, c, l.d, s');
    } else if l.Commit? {
      CommitStep(cat, hash, s, c, s');
    } else {
      QuietStep(cat, hash, s, c, l, s');
    }
  }

  lemma SaneTamper(cat: Catalog, s: System, s': System)
    requires Sane(cat, s) && Tamper(s, s')
    ensures Sane(cat, s')
  {
    forall o: nat ensures PhaseOf(s', o) == PhaseOf(s, o) { }
    assert LockOk(s');
    assert PhasesOk(cat, s');
  }

  // ----- Runs -----

  /** A run: who stepped, and how; None is outside interference. */
  type Schedule = seq<Option<(nat, Label)>>

  ghost predicate Moves(cat: Catalog, hash: Digest, s: System, m: Option<(nat, Label)>, s': System)
  {
    match m
    case None => Tamper(s, s')
    case Some(step) => Next(cat, hash, s, step.0, step.1, s')
  }

  ghost predicate MoveAt(cat: Catalog, hash: Digest, tr: seq<System>, schedule: Schedule, i: nat)
    requires |tr| == |schedule| + 1 && i < |schedule|
  {
    Moves(cat, hash, tr[i], schedule[i], tr[i + 1])
  }

  ghost predicate SystemRun(cat: Catalog, hash: Digest, tr: seq<System>, schedule: Schedule)
  {
    && |tr| == |schedule| + 1 && Accepted(cat) && Initial(tr[0])
    && forall i: nat {:trigger MoveAt(cat, hash, tr, schedule, i)} :: i < |schedule| ==>
      MoveAt(cat, hash, tr, schedule, i)
  }

  ghost predicate Untampered(schedule: Schedule)
  {
    forall i :: 0 <= i < |schedule| ==> schedule[i].Some?
  }

  lemma {:induction false} SaneRun(cat: Catalog, hash: Digest, tr: seq<System>, schedule: Schedule, i: nat)
    requires SystemRun(cat, hash, tr, schedule) && i < |tr|
    ensures Sane(cat, tr[i])
  {
    if i == 0 {
      assert forall c: nat :: PhaseOf(tr[0], c) == Idle;
    } else {
      SaneRun(cat, hash, tr, schedule, i - 1);
      assert MoveAt(cat, hash, tr, schedule, i - 1);
      SaneMove(cat, hash, tr[i - 1], schedule[i - 1], tr[i]);
    }
  }

  lemma SaneMove(cat: Catalog, hash: Digest, s: System, m: Option<(nat, Label)>, s': System)
    requires Sane(cat, s) && Moves(cat, hash, s, m, s')
    ensures Sane(cat, s')
  {
    match m
    case None => SaneTamper(cat, s, s');
    case Some((c, l)) => SaneStep(cat, hash, s, c, l, s');
  }

  /** A step either leaves the committed rows alone or commits one whole
      transaction. */
  lemma StepIsTransactionOrNothing(cat: Catalog, hash: Digest, s: System, m: Option<(nat, Label)>, s': System)
    returns (acts: seq<Action>)
    requires Sane(cat, s) && Moves(cat, hash, s, m, s')
    ensures |acts| <= 1 && Run(cat, s.rows, acts) && s'.log == s.log + acts && s'.rows == After(s.rows, acts)
  {
    if m.Some? && m.value.1.Commit? {
      var c := m.value.0;
      CommitKept(cat, hash, s, c, s');
      acts := [ActionOf(PhaseOf(s, c).job, PhaseOf(s, c).written)];
      OneTransaction(cat, s.rows, acts[0]);
    } else {
      if m.Some? { RowsStay(cat, hash, s, m.value.0, m.value.1, s'); }
      acts := [];
    }
  }

  /** The committed state of b comes from that of a by the transactions acts. */
  ghost predicate Grows(cat: Catalog, a: System, acts: seq<Action>, b: System)
  {
    b.log == a.log + acts && Run(cat, a.rows, acts) && After(a.rows, acts) == b.rows
  }

  lemma GrowsFurther(cat: Catalog, a: System, acts: seq<Action>, b: System, more: seq<Action>, c: System)
    requires Grows(cat, a, acts, b) && Grows(cat, b, more, c)
    ensures Grows(cat, a, acts + more, c)
  {
    RunConcat(cat, a.rows, acts, more);
    assert a.log + acts + more == a.log + (acts + more);
  }

  lemma GrowsOnce(cat: Catalog, hash: Digest, tr: seq<System>, schedule: Schedule, i: nat) returns (acts: seq<Action>)
    requires SystemRun(cat, hash, tr, schedule) && i < |schedule|
    ensures Grows(cat, tr[i], acts, tr[i + 1])
  {
    SaneRun(cat, hash, tr, schedule, i);
    assert MoveAt(cat, hash, tr, schedule, i);
    acts := StepIsTransactionOrNothing(cat, hash, tr[i], schedule[i], tr[i + 1]);
  }

  lemma {:induction false} GrowsAlong(cat: Catalog, hash: Digest, tr: seq<System>, schedule: Schedule, i: nat, j: nat)
    returns (acts: seq<Action>)
    requires SystemRun(cat, hash, tr, schedule) && i <= j < |tr|
    ensures Grows(cat, tr[i], acts, tr[j])
    decreases j - i
  {
    if i == j {
      acts := [];
      assert tr[i].log + [] == tr[i].log;
    } else {
      var before := GrowsAlong(cat, hash, tr, schedule, i, j - 1);
      var last := GrowsOnce(cat, hash, tr, schedule, j - 1);
      GrowsFurther(cat, tr[i], before, tr[j - 1], last, tr[j]);
      acts := before + last;
    }
  }

  /** Every interleaved run, with any failures and any interference with the
      evidence, is a history of whole transactions: what is committed at i, and
      how it has grown by j. */
  lemma InterleavingsAreHistories(cat: Catalog, hash: Digest, tr: seq<System>, schedule: Schedule, i: nat, j: nat)
    returns (future: seq<Action>)
    requires SystemRun(cat, hash, tr, schedule) && i <= j < |tr|
    ensures History(cat, tr[i].log) && After({}, tr[i].log) == tr[i].rows
    ensures tr[j].log == tr[i].log + future && Run(cat, tr[i].rows, future) && After(tr[i].rows, future) == tr[j].rows
  {
    SaneRun(cat, hash, tr, schedule, i);
    future := GrowsAlong(cat, hash, tr, schedule, i, j);
  }

  /** Readers never see half a transaction: in every state of every run each
      motion has one of the three committed shapes. */
  lemma ShapesAlways(cat: Catalog, hash: Digest, tr: seq<System>, schedule: Schedule, i: nat, motionId: string)
    requires SystemRun(cat, hash, tr, schedule) && i < |tr|
    ensures ShapeOk(KindsOf(tr[i].rows, motionId))
    ensures forall e, x :: e in MotionRows(tr[i].rows, motionId) && x in MotionRows(tr[i].rows, motionId) ==>
              SameIdentity(e, x)
  {
    SaneRun(cat, hash, tr, schedule, i);
    MotionShape(cat, tr[i].log, motionId);
  }

  /** Chain integrity of interleaved runs: where the commits kept H1, every exact
      scope's changes form one path from its initial position. */
  lemma ChainsAlways(cat: Catalog, hash: Digest, tr: seq<System>, schedule: Schedule, i: nat,
                     d: Declaration, scope: Option<string>, s: seq<Row>)
    requires SystemRun(cat, hash, tr, schedule) && i < |tr| && Orderly({}, tr[i].log)
    requires Declares(cat, d) && Lists(s, Changes(tr[i].rows, TripleFor(d, scope)))
    ensures Authority.Path(s, d.initialPosition)
    ensures Fold(tr[i].rows, d, scope) == Authority.EndOf(s, d.initialPosition)
  {
    SaneRun(cat, hash, tr, schedule, i);
    Authority.ChainIntegrity(cat, tr[i].log, d, scope, s);
  }

  /** And with no clock assumption: they do at every moment up to i, and every
      execution there took effect, if and only if each one met its guard. */
  lemma ChainsAlwaysIff(cat: Catalog, hash: Digest, tr: seq<System>, schedule: Schedule, i: nat,
                        d: Declaration, scope: Option<string>)
    requires SystemRun(cat, hash, tr, schedule) && i < |tr| && Declares(cat, d)
    ensures ChainExact.OnePathAlong({}, tr[i].log, d, scope) <==>
              ChainExact.GuardedAlong({}, tr[i].log, TripleFor(d, scope))
    ensures ChainExact.EffectiveAlong({}, tr[i].log, TripleFor(d, scope)) <==>
              ChainExact.GuardedAlong({}, tr[i].log, TripleFor(d, scope))
  {
    SaneRun(cat, hash, tr, schedule, i);
    ChainExact.ChainIntegrityIff(cat, tr[i].log, d, scope);
    ChainExact.EffectiveIff(cat, {}, tr[i].log, TripleFor(d, scope));
  }

  /** What the one transaction committed at step i is, when it is act. */
  lemma CommittedStep(cat: Catalog, hash: Digest, tr: seq<System>, schedule: Schedule, i: nat, act: Action)
    requires SystemRun(cat, hash, tr, schedule) && i < |schedule| && tr[i + 1].log == tr[i].log + [act]
    ensures Inv(cat, tr[i].rows) && Step(cat, tr[i].rows, act) && tr[i + 1].rows == tr[i].rows + NewRows(act)
  {
    SaneRun(cat, hash, tr, schedule, i);
    InvRun(cat, {}, tr[i].log);
    assert MoveAt(cat, hash, tr, schedule, i);
    var acts := StepIsTransactionOrNothing(cat, hash, tr[i], schedule[i], tr[i + 1]);
    assert tr[i].log + acts == tr[i].log + [act];
    assert acts == (tr[i].log + acts)[|tr[i].log|..] == [act];
    assert After(tr[i].rows + NewRows(act), acts[1..]) == tr[i].rows + NewRows(act);
  }

  /** The commit of an execution moves its scope exactly if its change is the
      newest there, and leaves every proposal there stale exactly that was, or
      that it sorts after. */
  lemma CommitMovesIff(cat: Catalog, hash: Digest, tr: seq<System>, schedule: Schedule, i: nat, act: Action, q: Row)
    requires SystemRun(cat, hash, tr, schedule) && i < |schedule| && tr[i + 1].log == tr[i].log + [act]
    requires act.Approve? || act.Demote?
    ensures Latest(tr[i + 1].rows, TripleOf(act.p)) == Some(act.c) <==> ChainExact.Newest(tr[i].rows, act.c)
    ensures Fold(tr[i + 1].rows, act.d, act.p.scope) ==
              if ChainExact.Newest(tr[i].rows, act.c) then act.p.toPosition else Fold(tr[i].rows, act.d, act.p.scope)
    ensures q in tr[i].rows && q.event == MotionProposed && TripleOf(q) == TripleOf(act.p) ==>
              (Stale(tr[i + 1].rows, q) <==> Stale(tr[i].rows, q) || Precedes(q, act.c))
  {
    CommittedStep(cat, hash, tr, schedule, i, act);
    ChainExact.ExecutionMovesIff(cat, tr[i].rows, act);
    if q in tr[i].rows && q.event == MotionProposed && TripleOf(q) == TripleOf(act.p) {
      StaleAfterIff(tr[i].rows, act, q);
    }
  }

  /** Exclusivity of interleaved runs, whatever the clock: of two proposals open at
      i on one exact scope, both are executed by j only if the change of one sorts
      before the other proposal. */
  lemma BothExecutedAlways(cat: Catalog, hash: Digest, tr: seq<System>, schedule: Schedule, i: nat, j: nat,
                           p: Row, q: Row, c: Row, e: Row)
    requires SystemRun(cat, hash, tr, schedule) && i <= j < |tr|
    requires Open(tr[i].rows, p) && Open(tr[i].rows, q) && p != q && TripleOf(p) == TripleOf(q)
    requires c in tr[j].rows && Of(c, p.motionId, PositionChanged)
    requires e in tr[j].rows && Of(e, q.motionId, PositionChanged)
    ensures Precedes(c, q) || Precedes(e, p)
  {
    var future := InterleavingsAreHistories(cat, hash, tr, schedule, i, j);
    InvRun(cat, {}, tr[i].log);
    Authority.OpenHasNoChange(tr[i].rows, p);
    Authority.OpenHasNoChange(tr[i].rows, q);
    BothExecutedOnlyIf(cat, tr[i].rows, future, p, q, c, e);
  }

  /** Of all proposals open at i on one exact scope, at most one is executed by j,
      where what commits in between keeps H1. */
  lemma ExclusiveAlways(cat: Catalog, hash: Digest, tr: seq<System>, schedule: Schedule, i: nat, j: nat, p: Row, q: Row)
    requires SystemRun(cat, hash, tr, schedule) && i <= j < |tr|
    requires |tr[i].log| <= |tr[j].log| && Orderly(tr[i].rows, tr[j].log[|tr[i].log|..])
    requires Open(tr[i].rows, p) && Open(tr[i].rows, q) && p != q && TripleOf(p) == TripleOf(q)
    ensures !(Has(tr[j].rows, p.motionId, PositionChanged) && Has(tr[j].rows, q.motionId, PositionChanged))
  {
    var future := InterleavingsAreHistories(cat, hash, tr, schedule, i, j);
    assert future == tr[j].log[|tr[i].log|..];
    Authority.AtMostOneExecutes(cat, tr[i].log, future, p, q);
  }

  /** A motion shown at i is still shown at every later j, and decided ones have
      not changed. */
  lemma StatusAlways(cat: Catalog, hash: Digest, tr: seq<System>, schedule: Schedule, i: nat, j: nat, motionId: string)
    requires SystemRun(cat, hash, tr, schedule) && i <= j < |tr| && Motions.View(tr[i].rows, motionId).Some?
    ensures Motions.View(tr[j].rows, motionId).Some?
    ensures Motions.Evolves(Motions.View(tr[i].rows, motionId).value, Motions.View(tr[j].rows, motionId).value)
  {
    var future := InterleavingsAreHistories(cat, hash, tr, schedule, i, j);
    Motions.StatusIsMonotone(cat, tr[i].log, future, motionId);
  }

  /** Two-edge conservation of interleaved runs whose commits kept H1. */
  lemma ConservationAlways(cat: Catalog, hash: Digest, tr: seq<System>, schedule: Schedule, i: nat,
                           d: Declaration, scope: Option<string>, s: seq<Row>)
    requires SystemRun(cat, hash, tr, schedule) && i < |tr| && Orderly({}, tr[i].log)
    requires Declares(cat, d) && Authority.TwoEdged(d) && Lists(s, Changes(tr[i].rows, TripleFor(d, scope)))
    ensures Authority.Alternates(d, s) && Authority.Balanced(tr[i].rows, d, scope, s)
  {
    SaneRun(cat, hash, tr, schedule, i);
    Authority.TwoEdgeConservation(cat, tr[i].log, d, scope, s);
  }

  /** And with no clock assumption: conservation holds at every moment up to i if
      and only if every execution committed there met its guard. */
  lemma ConservationAlwaysIff(cat: Catalog, hash: Digest, tr: seq<System>, schedule: Schedule, i: nat,
                              d: Declaration, scope: Option<string>)
    requires SystemRun(cat, hash, tr, schedule) && i < |tr| && Declares(cat, d) && Authority.TwoEdged(d)
    ensures ChainExact.ConservedAlong({}, tr[i].log, d, scope) <==>
              ChainExact.GuardedAlong({}, tr[i].log, TripleFor(d, scope))
  {
    SaneRun(cat, hash, tr, schedule, i);
    ChainExact.ConservationIff(cat, tr[i].log, d, scope);
  }
}
