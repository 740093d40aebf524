/** The calls of the service as the small steps of a client: both say the same
    about when a call goes on, and `approve` alone writes the same rows. */
module CallsAsSteps {
  import opened Text
  import opened Events
  import opened Reads
  import opened Declarations
  import opened Lifecycle
  import opened Motions
  import opened Evidence
  import opened SqliteStore
  import opened Decisions
  import opened Clients
  import P = Publication

  function ApproveSteps(d: Declaration, p: Row, rows: seq<Row>): (labels: seq<Label>)
    requires |rows| == 2
    ensures |labels| == 6
  {
    [Lock(ApproveLocked(p.motionId)), VerifyApproval(p), Decide(ApproveJob(d, p), p),
     Insert(rows[0]), Insert(rows[1]), Commit]
  }

  /** Client c, holding the lock of s, in phase ph. */
  function Held(s: System, c: nat, ph: Phase): System
  {
    s.(writer := Some(c), clients := s.clients[c := ph])
  }

  function Inserted(d: Declaration, p: Row, written: seq<Row>): Phase
  {
    Inserting(ApproveJob(d, p), p, written)
  }

  function ApproveTrace(s: System, c: nat, d: Declaration, p: Row, rows: seq<Row>): (tr: seq<System>)
    requires |rows| == 2
    ensures |tr| == 7
  {
    [s, Held(s, c, ApproveLocked(p.motionId)), Held(s, c, EvidenceVerified(p)), Held(s, c, Inserted(d, p, [])),
     Held(s, c, Inserted(d, p, [rows[0]])), Held(s, c, Inserted(d, p, rows)),
     s.(rows := s.rows + RowsOf(rows), log := s.log + [Approve(d, p, rows[0], rows[1])],
        clients := s.clients[c := Idle])]
  }

  /** Step i of the trace is the one its label names. */
  ghost predicate StepAt(cat: Catalog, hash: Digest, s: System, c: nat, d: Declaration, p: Row, rows: seq<Row>, i: nat)
    requires |rows| == 2 && i < 6
  {
    Next(cat, hash, ApproveTrace(s, c, d, p, rows)[i], c, ApproveSteps(d, p, rows)[i],
         ApproveTrace(s, c, d, p, rows)[i + 1])
  }

  lemma StartSteps(cat: Catalog, hash: Digest, s: System, c: nat, d: Declaration, p: Row, rows: seq<Row>)
    requires |rows| == 2 && s.writer.None? && PhaseOf(s, c).Idle? && Open(s.rows, p)
    requires Verify(hash, s.dir.files, p.evidenceRef, p.evidenceSha256).Success?
    ensures StepAt(cat, hash, s, c, d, p, rows, 0) && StepAt(cat, hash, s, c, d, p, rows, 1)
  {
    assert s.clients[c := ApproveLocked(p.motionId)][c := EvidenceVerified(p)] == s.clients[c := EvidenceVerified(p)];
  }

  lemma DecideStep(cat: Catalog, hash: Digest, s: System, c: nat, d: Declaration, p: Row, rows: seq<Row>)
    requires |rows| == 2 && p.task in s.current && s.current[p.task] == d && d.version == p.declarationVersion
    requires DeclaredTransition(d, p.fromPosition, p.toPosition) && !Stale(s.rows, p)
    ensures StepAt(cat, hash, s, c, d, p, rows, 2)
  {
    assert s.clients[c := EvidenceVerified(p)][c := Inserted(d, p, [])] == s.clients[c := Inserted(d, p, [])];
  }

  lemma InsertStep(cat: Catalog, hash: Digest, s: System, c: nat, d: Declaration, p: Row, written: seq<Row>, row: Row)
    requires |written| < 2 && Copies(row, p, [MotionApproved, PositionChanged][|written|])
    requires Admits(s.rows + RowsOf(written), {row})
    ensures Next(cat, hash, Held(s, c, Inserted(d, p, written)), c, Insert(row),
                 Held(s, c, Inserted(d, p, written + [row])))
  {
    assert s.clients[c := Inserted(d, p, written)][c := Inserted(d, p, written + [row])] ==
           s.clients[c := Inserted(d, p, written + [row])];
  }

  lemma InsertSteps(cat: Catalog, hash: Digest, s: System, c: nat, d: Declaration, p: Row, rows: seq<Row>)
    requires |rows| == 2 && Carries(p, rows)
    requires Admits(s.rows, {rows[0]}) && Admits(s.rows + RowsOf([rows[0]]), {rows[1]})
    ensures StepAt(cat, hash, s, c, d, p, rows, 3) && StepAt(cat, hash, s, c, d, p, rows, 4)
  {
    assert RowsOf([]) == {} && s.rows + {} == s.rows && [] + [rows[0]] == [rows[0]] && [rows[0]] + [rows[1]] == rows;
    InsertStep(cat, hash, s, c, d, p, [], rows[0]);
    InsertStep(cat, hash, s, c, d, p, [rows[0]], rows[1]);
  }

  lemma CommitStep(cat: Catalog, hash: Digest, s: System, c: nat, d: Declaration, p: Row, rows: seq<Row>)
    requires |rows| == 2 && s.writer.None?
    ensures StepAt(cat, hash, s, c, d, p, rows, 5)
  {
    assert s.clients[c := Inserted(d, p, rows)][c := Idle] == s.clients[c := Idle];
    assert s.bound + map[] == s.bound;
  }

  predicate Carries(p: Row, rows: seq<Row>)
    requires |rows| == 2
  {
    Copies(rows[0], p, MotionApproved) && Copies(rows[1], p, PositionChanged)
  }

  lemma TwoAdmitted(base: seq<Row>, rows: seq<Row>)
    requires |rows| == 2 && Consistent(base + rows)
    ensures Admits(RowsOf(base), {rows[0]}) && Admits(RowsOf(base) + RowsOf([rows[0]]), {rows[1]})
  {
    assert base + rows == (base + [rows[0]]) + [rows[1]];
    AppendedWereAdmitted(base + [rows[0]], [rows[1]]);
    ConsistentPrefix(base + [rows[0]], [rows[1]]);
    AppendedWereAdmitted(base, [rows[0]]);
    assert RowsOf([rows[0]]) == {rows[0]} && RowsOf([rows[1]]) == {rows[1]};
    RowsOfConcat(base, [rows[0]]);
  }

  /** What `approve` has checked when it writes. */
  ghost predicate Checked(s: System, hash: Digest, d: Declaration, p: Row)
  {
    && Open(s.rows, p) && Verify(hash, s.dir.files, p.evidenceRef, p.evidenceSha256).Success?
    && p.task in s.current && s.current[p.task] == d && d.version == p.declarationVersion
    && DeclaredTransition(d, p.fromPosition, p.toPosition) && !Stale(s.rows, p)
  }

  lemma WritesWhenChecked(s: System, hash: Digest, motionId: string, p: Row)
    requires Table(s.rows) && Find(s.rows, motionId, MotionProposed) == Some(p)
    ensures ApproveVerdict(s.rows, motionId, hash, s.dir.files, Some(s.current)) == Write <==>
              p.task in s.current && Checked(s, hash, s.current[p.task], p)
  {
    FindIs(s.rows, p);
    OpenIff(s.rows, p);
    if ApproveVerdict(s.rows, motionId, hash, s.dir.files, Some(s.current)) == Write { NothingDecided(s.rows, p); }
  }

  lemma AllSteps(cat: Catalog, hash: Digest, s: System, c: nat, d: Declaration, p: Row, rows: seq<Row>)
    requires |rows| == 2 && s.writer.None? && PhaseOf(s, c).Idle? && Checked(s, hash, d, p) && Carries(p, rows)
    requires Admits(s.rows, {rows[0]}) && Admits(s.rows + RowsOf([rows[0]]), {rows[1]})
    ensures forall i: nat {:trigger StepAt(cat, hash, s, c, d, p, rows, i)} :: i < 6 ==>
              StepAt(cat, hash, s, c, d, p, rows, i)
  {
    forall i: nat | i < 6 ensures StepAt(cat, hash, s, c, d, p, rows, i) {
      if i < 2 {
        StartSteps(cat, hash, s, c, d, p, rows);
      } else if i == 2 {
        DecideStep(cat, hash, s, c, d, p, rows);
      } else if i < 5 {
        InsertSteps(cat, hash, s, c, d, p, rows);
      } else {
        CommitStep(cat, hash, s, c, d, p, rows);
      }
    }
  }

  /** When `approve` writes, a client running alone writes the same rows by these
      six steps, and leaves nothing else changed. */
  lemma ApproveAlone(cat: Catalog, hash: Digest, s: System, c: nat, base: seq<Row>, motionId: string,
                     draw: nat -> Stamp, actor: string, reason: string)
    returns (d: Declaration, p: Row)
    requires s.writer.None? && PhaseOf(s, c).Idle? && RowsOf(base) == s.rows && Consistent(base)
    requires ApproveVerdict(s.rows, motionId, hash, s.dir.files, Some(s.current)) == Write
    requires Consistent(base + Siblings(Find(s.rows, motionId, MotionProposed).value, [MotionApproved, PositionChanged],
                                        draw, actor, reason))
    ensures Find(s.rows, motionId, MotionProposed) == Some(p)
    ensures var rows := Siblings(p, [MotionApproved, PositionChanged], draw, actor, reason);
            && (forall i: nat {:trigger StepAt(cat, hash, s, c, d, p, rows, i)} :: i < 6 ==>
                  StepAt(cat, hash, s, c, d, p, rows, i))
            && ApproveTrace(s, c, d, p, rows)[6].rows == RowsOf(base + rows)
  {
    p := Find(s.rows, motionId, MotionProposed).value;
    ConsistentIsTable(base);
    WritesWhenChecked(s, hash, motionId, p);
    d := s.current[p.task];
    var rows := Siblings(p, [MotionApproved, PositionChanged], draw, actor, reason);
    TwoSiblings(p, draw, actor, reason);
    TwoAdmitted(base, rows);
    RowsOfConcat(base, rows);
    AllSteps(cat, hash, s, c, d, p, rows);
  }

  lemma StepsCheck(cat: Catalog, hash: Digest, s: System, s': System, t: System, t': System, c: nat,
                   d: Declaration, p: Row, template: Row)
    requires Next(cat, hash, s, c, VerifyApproval(p), s')
    requires Next(cat, hash, t, c, Decide(ApproveJob(d, p), template), t')
    requires t.rows == s.rows
    ensures template == p && Checked(s.(current := t.current), hash, d, p)
  {
  }

  /** And a client that verified an approval in s and decides it in t, the rows not
      having changed since, has found exactly what makes `approve` write. */
  lemma DecisionIsVerdict(cat: Catalog, hash: Digest, s: System, s': System, t: System, t': System, c: nat,
                          d: Declaration, p: Row, template: Row)
    requires Table(s.rows) && t.rows == s.rows
    requires Next(cat, hash, s, c, VerifyApproval(p), s')
    requires Next(cat, hash, t, c, Decide(ApproveJob(d, p), template), t')
    ensures ApproveVerdict(s.rows, p.motionId, hash, s.dir.files, Some(t.current)) == Write
    ensures Find(s.rows, p.motionId, MotionProposed) == Some(p) && Lookup(Some(t.current), p.task) == Some(d)
  {
    StepsCheck(cat, hash, s, s', t, t', c, d, p, template);
    FindIs(s.rows, p);
    WritesWhenChecked(s.(current := t.current), hash, p.motionId, p);
  }

  // ----- The other calls: a step is open exactly when the call would go on -----

  ghost predicate CanStep(cat: Catalog, hash: Digest, s: System, c: nat, l: Label)
  {
    exists s' :: Next(cat, hash, s, c, l, s')
  }

  predicate FreshWriter(s: System, w: nat)
  {
    w !in s.dir.writers && w !in s.dir.temps
  }

  /** `propose` starts storing evidence exactly when its advisory checks pass. */
  lemma StartProposeIff(cat: Catalog, hash: Digest, s: System, c: nat, scope: Option<string>, toPosition: Position,
                        data: Bytes, task: string, w: nat)
    requires Accepted(cat) && LoadedFrom(cat, Some(s.current)) && FreshWriter(s, w)
    ensures CanStep(cat, hash, s, c, StartPropose(scope, toPosition, data, task, w)) <==>
              && PhaseOf(s, c).Idle?
              && ProposePrecheck(s.rows, Some(s.current), task, scope, toPosition, Some(data)) == Write
  {
    var l := StartPropose(scope, toPosition, data, task, w);
    if PhaseOf(s, c).Idle? && ProposePrecheck(s.rows, Some(s.current), task, scope, toPosition, Some(data)) == Write {
      var dir := s.dir.(writers := s.dir.writers[w := P.Starting(data)]);
      var s' := s.(clients := s.clients[c := Proposing(s.current[task], scope, toPosition, data, w)], dir := dir);
      assert Next(cat, hash, s, c, l, s');
    }
    if CanStep(cat, hash, s, c, l) {
      KnownTarget(cat, s, s.current[task], Fold(s.rows, s.current[task], scope), toPosition);
    }
  }

  lemma KnownTarget(cat: Catalog, s: System, d: Declaration, fromPosition: Position, toPosition: Position)
    requires Accepted(cat) && Declares(cat, d) && DeclaredTransition(d, fromPosition, toPosition)
    ensures !toPosition.OtherPosition?
  {
  }

  /** Under the lock it decides on a row exactly when the transition still stands. */
  lemma ProposeDecidesIff(cat: Catalog, hash: Digest, s: System, c: nat, d: Declaration, template: Row)
    requires PhaseOf(s, c).ProposeLocked? && PhaseOf(s, c).d == d
    requires NewMotion(s.rows, hash, d, PhaseOf(s, c).scope, PhaseOf(s, c).data, template)
    requires template.toPosition == PhaseOf(s, c).toPosition
    ensures CanStep(cat, hash, s, c, Decide(ProposeJob(d, PhaseOf(s, c).data), template)) <==>
              TransitionVerdict(s.rows, d, PhaseOf(s, c).scope, template.toPosition) == Write
  {
    var job := ProposeJob(d, PhaseOf(s, c).data);
    if MayDecide(hash, s, PhaseOf(s, c), job, template) {
      assert Next(cat, hash, s, c, Decide(job, template), s.(clients := s.clients[c := Inserting(job, template, [])]));
    }
  }

  /** `reject` decides exactly when it would write. */
  lemma RejectDecidesIff(cat: Catalog, hash: Digest, s: System, c: nat, p: Row)
    requires Table(s.rows) && PhaseOf(s, c) == RejectLocked(p.motionId)
    requires Find(s.rows, p.motionId, MotionProposed) == Some(p)
    ensures CanStep(cat, hash, s, c, Decide(RejectJob(p), p)) <==> RejectVerdict(s.rows, p.motionId) == Write
  {
    OpenIff(s.rows, p);
    if RejectVerdict(s.rows, p.motionId) == Write { NothingDecided(s.rows, p); }
    if Open(s.rows, p) {
      assert Next(cat, hash, s, c, Decide(RejectJob(p), p),
                  s.(clients := s.clients[c := Inserting(RejectJob(p), p, [])]));
    }
  }

  /** `demote` goes on to store its evidence exactly when the second load passes. */
  lemma CheckDemotionIff(cat: Catalog, hash: Digest, s: System, c: nat, d: Declaration, scope: Option<string>,
                         data: Bytes, w: nat)
    requires PhaseOf(s, c) == DemoteLocked(d, scope) && FreshWriter(s, w)
    ensures CanStep(cat, hash, s, c, CheckDemotion(data, w)) <==>
              DemoteVerdict(s.rows, Some(map[d.task := d]), Some(s.current), d.task, scope) == Write
  {
    if DemoteVerdict(s.rows, Some(map[d.task := d]), Some(s.current), d.task, scope) == Write {
      var dir := s.dir.(writers := s.dir.writers[w := P.Starting(data)]);
      assert Next(cat, hash, s, c, CheckDemotion(data, w),
                  s.(clients := s.clients[c := DemoteStoring(d, scope, data, w)], dir := dir));
    }
  }

  /** Once that evidence is stored it can decide on its rows. */
  lemma DemoteDecides(cat: Catalog, hash: Digest, s: System, c: nat, template: Row)
    requires PhaseOf(s, c).DemoteStoring? && Finished(s.dir, PhaseOf(s, c).w, PhaseOf(s, c).data)
    requires NewMotion(s.rows, hash, PhaseOf(s, c).d, PhaseOf(s, c).scope, PhaseOf(s, c).data, template)
    requires template.toPosition == PhaseOf(s, c).d.demotion.toPosition
    ensures CanStep(cat, hash, s, c, Decide(DemoteJob(PhaseOf(s, c).d, PhaseOf(s, c).data), template))
  {
    var job := DemoteJob(PhaseOf(s, c).d, PhaseOf(s, c).data);
    assert Next(cat, hash, s, c, Decide(job, template), s.(clients := s.clients[c := Inserting(job, template, [])]));
  }

  /** Whatever was decided, a row of the right kind goes in exactly when the
      constraints admit it, and when all are in the client can commit. */
  lemma InsertIff(cat: Catalog, hash: Digest, s: System, c: nat, row: Row)
    requires PhaseOf(s, c).Inserting?
    ensures var ph := PhaseOf(s, c);
            && (|ph.written| == |KindsOfJob(ph.job)| ==> CanStep(cat, hash, s, c, Commit))
            && (|ph.written| < |KindsOfJob(ph.job)| &&
                Copies(row, ph.template, KindsOfJob(ph.job)[|ph.written|]) ==>
                  (CanStep(cat, hash, s, c, Insert(row)) <==> Admits(s.rows + RowsOf(ph.written), {row})))
  {
    var ph := PhaseOf(s, c);
    if |ph.written| == |KindsOfJob(ph.job)| {
      assert Next(cat, hash, s, c, Commit,
                  s.(rows := s.rows + RowsOf(ph.written), log := s.log + [ActionOf(ph.job, ph.written)], writer := None,
                     clients := s.clients[c := Idle], bound := s.bound + Binding(ph.job, ph.template.motionId)));
    } else if Admits(s.rows + RowsOf(ph.written), {row}) &&
              |ph.written| < |KindsOfJob(ph.job)| && Copies(row, ph.template, KindsOfJob(ph.job)[|ph.written|]) {
      assert Next(cat, hash, s, c, Insert(row), s.(clients := s.clients[c := ph.(written := ph.written + [row])]));
    }
  }

  /** `demote` gets past its first load exactly when that declares the scope. */
  lemma StartDemoteIff(cat: Catalog, hash: Digest, s: System, c: nat, task: string, scope: Option<string>)
    ensures CanStep(cat, hash, s, c, StartDemote(task, scope)) <==>
              PhaseOf(s, c).Idle? && task in s.current && ScopeAllowed(s.current[task], scope)
  {
    if PhaseOf(s, c).Idle? && task in s.current && ScopeAllowed(s.current[task], scope) {
      assert Next(cat, hash, s, c, StartDemote(task, scope),
                  s.(clients := s.clients[c := Demoting(s.current[task], scope)]));
    }
  }

  /** Which calls are ready for the lock: decisions at once, a proposal when its
      evidence is stored, a demotion when its declaration is loaded. */
  lemma ReadyForLock(dir: P.Directory, ph: Phase, motionId: string)
    ensures MayLock(dir, ph, ApproveLocked(motionId)) <==> ph == Idle
    ensures MayLock(dir, ph, RejectLocked(motionId)) <==> ph == Idle
    ensures ph.Proposing? ==>
              (MayLock(dir, ph, ProposeLocked(ph.d, ph.scope, ph.toPosition, ph.data)) <==>
               ph.w in dir.writers && dir.writers[ph.w].Done? && dir.writers[ph.w].outcome == P.Stored &&
               dir.writers[ph.w].data == ph.data)
    ensures ph.Demoting? ==> MayLock(dir, ph, DemoteLocked(ph.d, ph.scope))
  {
  }

  /** The lock can be taken exactly when nobody holds it. */
  lemma LockIff(cat: Catalog, hash: Digest, s: System, c: nat, next: Phase)
    requires MayLock(s.dir, PhaseOf(s, c), next)
    ensures CanStep(cat, hash, s, c, Lock(next)) <==> s.writer == None
  {
    if s.writer == None {
      assert Next(cat, hash, s, c, Lock(next), s.(writer := Some(c), clients := s.clients[c := next]));
    }
  }
}
