/** Committed motions and the bytes they are bound to, over interleaved runs. */
module EvidenceBinding {
  import opened Text
  import opened Events
  import opened Declarations
  import opened Lifecycle
  import opened Histories
  import opened Evidence
  import opened Clients
  import opened ClientRuns
  import P = Publication

  // ----- Without tampering -----

  predicate Refers(hash: Digest, e: Row, data: Bytes)
  {
    e.evidenceSha256 == hash(data) && e.evidenceRef == RefFor(hash(data))
  }

  /** The artifact a phase has already secured is in the directory. */
  ghost predicate Secured(hash: Digest, files: Files, ph: Phase)
  {
    match ph
    case ProposeLocked(_, _, _, data) => Holds(hash, files, data)
    case Inserting(ProposeJob(_, data), template, _) => Holds(hash, files, data) && Refers(hash, template, data)
    case Inserting(DemoteJob(_, data), template, _) => Holds(hash, files, data) && Refers(hash, template, data)
    case _ => true
  }

  ghost predicate Bound(hash: Digest, s: System, e: Row)
  {
    e.motionId in s.bound && Verify(hash, s.dir.files, e.evidenceRef, e.evidenceSha256) == Success(s.bound[e.motionId])
  }

  ghost predicate AllSecured(hash: Digest, s: System)
  {
    forall c: nat {:trigger PhaseOf(s, c)} :: Secured(hash, s.dir.files, PhaseOf(s, c))
  }

  ghost predicate AllBound(hash: Digest, s: System)
  {
    forall e {:trigger Bound(hash, s, e)} :: e in s.rows ==> Bound(hash, s, e)
  }

  ghost predicate Evident(hash: Digest, s: System)
  {
    P.Coherent(hash, s.dir) && AllSecured(hash, s) && AllBound(hash, s)
  }

  ghost predicate Extends(before: Files, after: Files)
  {
    forall a :: a in before ==> a in after && after[a] == before[a]
  }

  lemma DirectoryKept(cat: Catalog, hash: Digest, s: System, c: nat, l: Label, s': System)
    requires P.Coherent(hash, s.dir) && Next(cat, hash, s, c, l, s')
    ensures P.Coherent(hash, s'.dir) && Extends(s.dir.files, s'.dir.files)
  {
    match l
    case Publish(e) =>
      P.CoherentStep(hash, s.dir, e, s'.dir);
      P.FilesKept(hash, s.dir, e, s'.dir);
    case StartPropose(_, _, data, _, w) =>
      P.CoherentStep(hash, s.dir, P.Start(w, data), s'.dir);
    case CheckDemotion(data, w) =>
      P.CoherentStep(hash, s.dir, P.Start(w, data), s'.dir);
    case _ =>
  }

  lemma SecuredStep(cat: Catalog, hash: Digest, s: System, c: nat, l: Label, s': System)
    requires P.Coherent(hash, s.dir) && AllSecured(hash, s) && Next(cat, hash, s, c, l, s')
    requires Extends(s.dir.files, s'.dir.files)
    ensures AllSecured(hash, s')
  {
    forall o: nat ensures Secured(hash, s'.dir.files, PhaseOf(s', o)) {
      assert Secured(hash, s.dir.files, PhaseOf(s, o));
      if o != c || l.Switch? || l.Publish? {
        OthersStay(cat, hash, s, c, l, s', o);
      } else {
        OwnSecured(cat, hash, s, c, l, s');
      }
    }
  }

  lemma OwnSecured(cat: Catalog, hash: Digest, s: System, c: nat, l: Label, s': System)
    requires P.Coherent(hash, s.dir) && Secured(hash, s.dir.files, PhaseOf(s, c)) && ClientStep(cat, hash, s, c, l, s')
    requires Extends(s.dir.files, s'.dir.files)
    ensures Secured(hash, s'.dir.files, PhaseOf(s', c))
  {
    var ph := PhaseOf(s, c);
    if (ph.Proposing? || ph.DemoteStoring?) && Finished(s.dir, ph.w, ph.data) {
      assert P.Agrees(hash, s.dir, ph.w);
    }
  }

  lemma BoundKept(hash: Digest, s: System, s': System, e: Row)
    requires Bound(hash, s, e) && Extends(s.dir.files, s'.dir.files)
    requires e.motionId in s'.bound && s'.bound[e.motionId] == s.bound[e.motionId]
    ensures Bound(hash, s', e)
  {
    VerifyExactly(hash, s.dir.files, e.evidenceRef, e.evidenceSha256, s.bound[e.motionId]);
    VerifyExactly(hash, s'.dir.files, e.evidenceRef, e.evidenceSha256, s.bound[e.motionId]);
  }

  /** What a new motion is bound to was secured before its rows were decided. */
  lemma NewRowBound(hash: Digest, s: System, ph: Phase, e: Row, s': System)
    requires Digests(hash) && ph.Inserting? && |ph.written| == |KindsOfJob(ph.job)| && Secured(hash, s.dir.files, ph)
    requires ph.job.ProposeJob? || ph.job.DemoteJob?
    requires SameIdentity(e, ph.template) && e.motionId == ph.template.motionId
    requires s'.dir == s.dir && s'.bound == s.bound + Binding(ph.job, ph.template.motionId)
    ensures Bound(hash, s', e)
  {
    VerifyExactly(hash, s'.dir.files, e.evidenceRef, e.evidenceSha256, ph.job.data);
  }

  /** A decision's rows copy a proposal that is bound already. */
  lemma DecisionBound(hash: Digest, s: System, p: Row, e: Row, s': System)
    requires Bound(hash, s, p) && SameIdentity(e, p) && e.motionId == p.motionId
    requires s'.dir == s.dir && s'.bound == s.bound
    ensures Bound(hash, s', e)
  {
  }

  lemma WrittenCopiesTemplate(cat: Catalog, t: set<Row>, current: map<string, Declaration>, ph: Phase)
    requires ph.Inserting? && |ph.written| == |KindsOfJob(ph.job)| && PhaseOk(cat, t, current, ph)
    ensures var act := ActionOf(ph.job, ph.written);
            SameIdentity(act.p, ph.template) && act.p.motionId == ph.template.motionId
    ensures var act := ActionOf(ph.job, ph.written);
            (act.Reject? || act.Approve?) ==> act.p in t && act.p == ph.template
  {
    assert Copies(ph.written[0], ph.template, KindsOfJob(ph.job)[0]);
  }

  /** What a commit did, without the machinery that did it. */
  ghost predicate Committed(cat: Catalog, s: System, ph: Phase, s': System)
  {
    && ph.Inserting? && |ph.written| == |KindsOfJob(ph.job)|
    && Step(cat, s.rows, ActionOf(ph.job, ph.written)) && s'.rows == s.rows + NewRows(ActionOf(ph.job, ph.written))
    && s'.dir == s.dir && s'.bound == s.bound + Binding(ph.job, ph.template.motionId)
    && PhaseOk(cat, s.rows, s.current, ph)
  }

  lemma CommitFacts(cat: Catalog, hash: Digest, s: System, c: nat, s': System)
    requires Sane(cat, s) && ClientStep(cat, hash, s, c, Commit, s')
    ensures Committed(cat, s, PhaseOf(s, c), s')
  {
    CommitKept(cat, hash, s, c, s');
  }

  lemma CommitBindsNew(cat: Catalog, hash: Digest, s: System, ph: Phase, s': System, e: Row)
    requires Digests(hash) && AllBound(hash, s) && Secured(hash, s.dir.files, ph) && Committed(cat, s, ph, s')
    requires e in s'.rows && e !in s.rows
    ensures Bound(hash, s', e)
  {
    var act := ActionOf(ph.job, ph.written);
    NewRowsCopy(s.rows, act, e);
    WrittenCopiesTemplate(cat, s.rows, s.current, ph);
    if ph.job.ProposeJob? || ph.job.DemoteJob? {
      NewRowBound(hash, s, ph, e, s');
    } else {
      assert Bound(hash, s, act.p);
      assert s.bound + map[] == s.bound;
      DecisionBound(hash, s, act.p, e, s');
    }
  }

  lemma CommitBindsOld(cat: Catalog, hash: Digest, s: System, ph: Phase, s': System, e: Row)
    requires Rooted(cat, s.rows) && AllBound(hash, s) && Committed(cat, s, ph, s') && e in s.rows
    ensures Bound(hash, s', e)
  {
    var act := ActionOf(ph.job, ph.written);
    WrittenCopiesTemplate(cat, s.rows, s.current, ph);
    assert Bound(hash, s, e);
    if act.Propose? || act.Demote? { NewMotionIsNew(cat, s.rows, act, e); }
    BoundKept(hash, s, s', e);
  }

  lemma CommitBinds(cat: Catalog, hash: Digest, s: System, c: nat, s': System)
    requires Digests(hash) && Sane(cat, s) && Evident(hash, s) && ClientStep(cat, hash, s, c, Commit, s')
    ensures AllBound(hash, s')
  {
    CommitFacts(cat, hash, s, c, s');
    InvRun(cat, {}, s.log);
    forall e | e in s'.rows ensures Bound(hash, s', e) {
      if e in s.rows {
        CommitBindsOld(cat, hash, s, PhaseOf(s, c), s', e);
      } else {
        CommitBindsNew(cat, hash, s, PhaseOf(s, c), s', e);
      }
    }
  }

  lemma QuietBinds(cat: Catalog, hash: Digest, s: System, c: nat, l: Label, s': System)
    requires AllBound(hash, s) && Next(cat, hash, s, c, l, s') && !l.Commit? && Extends(s.dir.files, s'.dir.files)
    ensures AllBound(hash, s')
  {
    RowsStay(cat, hash, s, c, l, s');
    forall e | e in s'.rows ensures Bound(hash, s', e) {
      assert Bound(hash, s, e);
      BoundKept(hash, s, s', e);
    }
  }

  lemma EvidentStep(cat: Catalog, hash: Digest, s: System, c: nat, l: Label, s': System)
    requires Digests(hash) && Sane(cat, s) && Evident(hash, s) && Next(cat, hash, s, c, l, s')
    ensures Evident(hash, s') && Extends(s.dir.files, s'.dir.files)
  {
    DirectoryKept(cat, hash, s, c, l, s');
    SecuredStep(cat, hash, s, c, l, s');
    if l.Commit? {
      CommitBinds(cat, hash, s, c, s');
    } else {
      QuietBinds(cat, hash, s, c, l, s');
    }
  }

  lemma EvidentMove(cat: Catalog, hash: Digest, tr: seq<System>, schedule: Schedule, i: nat)
    requires Digests(hash) && SystemRun(cat, hash, tr, schedule) && Untampered(schedule) && i < |schedule|
    requires Evident(hash, tr[i])
    ensures Evident(hash, tr[i + 1]) && Extends(tr[i].dir.files, tr[i + 1].dir.files)
  {
    SaneRun(cat, hash, tr, schedule, i);
    assert MoveAt(cat, hash, tr, schedule, i) && schedule[i].Some?;
    EvidentStep(cat, hash, tr[i], schedule[i].value.0, schedule[i].value.1, tr[i + 1]);
  }

  lemma {:induction false} EvidentRun(cat: Catalog, hash: Digest, tr: seq<System>, schedule: Schedule, i: nat)
    requires Digests(hash) && SystemRun(cat, hash, tr, schedule) && Untampered(schedule) && i < |tr|
    ensures Evident(hash, tr[i])
  {
    if i > 0 {
      EvidentRun(cat, hash, tr, schedule, i - 1);
      EvidentMove(cat, hash, tr, schedule, i - 1);
    }
  }

  lemma {:induction false} FilesExtend(cat: Catalog, hash: Digest, tr: seq<System>, schedule: Schedule, i: nat, j: nat)
    requires Digests(hash) && SystemRun(cat, hash, tr, schedule) && Untampered(schedule) && i <= j < |tr|
    ensures Extends(tr[i].dir.files, tr[j].dir.files)
    decreases j
  {
    if i < j {
      FilesExtend(cat, hash, tr, schedule, i, j - 1);
      EvidentRun(cat, hash, tr, schedule, j - 1);
      EvidentMove(cat, hash, tr, schedule, j - 1);
    }
  }

  /** Without tampering, every row ever committed verifies, in its own state and
      in all later ones, and yields exactly the bytes stored for its motion. */
  lemma CommittedMotionsVerify(cat: Catalog, hash: Digest, tr: seq<System>, schedule: Schedule, i: nat, j: nat, e: Row)
    requires Digests(hash) && SystemRun(cat, hash, tr, schedule) && Untampered(schedule)
    requires i <= j < |tr| && e in tr[i].rows
    ensures e.motionId in tr[i].bound
    ensures Verify(hash, tr[j].dir.files, e.evidenceRef, e.evidenceSha256) == Success(tr[i].bound[e.motionId])
  {
    EvidentRun(cat, hash, tr, schedule, i);
    FilesExtend(cat, hash, tr, schedule, i, j);
    assert Bound(hash, tr[i], e);
    BoundKept(hash, tr[i], tr[j].(bound := tr[i].bound), e);
  }

  // ----- With tampering -----

  /** Client c is past the evidence check of its approval of p. */
  predicate Approving(ph: Phase, p: Row)
  {
    ph == EvidenceVerified(p) || (ph.Inserting? && ph.job.ApproveJob? && ph.job.p == p)
  }

  /** In state s the evidence of p verifies, and client c holds the lock over
      these rows. */
  ghost predicate VerifiesUnderLock(hash: Digest, s: System, c: nat, p: Row, rows: set<Row>)
  {
    && Verify(hash, s.dir.files, p.evidenceRef, p.evidenceSha256).Success?
    && s.writer == Some(c) && s.rows == rows && Open(rows, p)
  }

  /** While c approves, c holds the lock and nobody commits. */
  lemma ApprovingRowsStay(cat: Catalog, hash: Digest, s: System, o: nat, l: Label, s': System, c: nat, p: Row)
    requires LockOk(s) && LockOk(s') && Next(cat, hash, s, o, l, s') && Approving(PhaseOf(s', c), p)
    ensures s'.rows == s.rows
  {
    assert HoldsLock(PhaseOf(s', c)) && s'.writer == Some(c);
    if !l.Commit? { RowsStay(cat, hash, s, o, l, s'); }
  }

  lemma ApprovingBegins(cat: Catalog, hash: Digest, s: System, c: nat, l: Label, s': System, p: Row)
    requires ClientStep(cat, hash, s, c, l, s') && s.writer == Some(c) && Approving(PhaseOf(s', c), p)
    ensures Approving(PhaseOf(s, c), p) || VerifiesUnderLock(hash, s, c, p, s.rows)
  {
  }

  lemma ApprovingStep(cat: Catalog, hash: Digest, s: System, o: nat, l: Label, s': System, c: nat, p: Row)
    requires LockOk(s) && LockOk(s') && Next(cat, hash, s, o, l, s') && Approving(PhaseOf(s', c), p)
    ensures Approving(PhaseOf(s, c), p) || VerifiesUnderLock(hash, s, c, p, s.rows)
  {
    if o != c || l.Switch? || l.Publish? {
      OthersStay(cat, hash, s, o, l, s', c);
    } else {
      assert HoldsLock(PhaseOf(s', c)) && s'.writer == Some(c);
      assert !l.Lock?;
      ApprovingBegins(cat, hash, s, c, l, s', p);
    }
  }

  lemma ApprovingMove(cat: Catalog, hash: Digest, tr: seq<System>, schedule: Schedule, i: nat, c: nat, p: Row)
    requires SystemRun(cat, hash, tr, schedule) && i < |schedule| && Approving(PhaseOf(tr[i + 1], c), p)
    ensures tr[i + 1].rows == tr[i].rows
    ensures Approving(PhaseOf(tr[i], c), p) || VerifiesUnderLock(hash, tr[i], c, p, tr[i].rows)
  {
    SaneRun(cat, hash, tr, schedule, i);
    SaneRun(cat, hash, tr, schedule, i + 1);
    assert MoveAt(cat, hash, tr, schedule, i);
    match schedule[i]
    case None =>
    case Some((o, l)) =>
      ApprovingRowsStay(cat, hash, tr[i], o, l, tr[i + 1], c, p);
      ApprovingStep(cat, hash, tr[i], o, l, tr[i + 1], c, p);
  }

  lemma {:induction false} ApprovingSince(cat: Catalog, hash: Digest, tr: seq<System>, schedule: Schedule, i: nat,
                                          c: nat, p: Row)
    returns (j: nat)
    requires SystemRun(cat, hash, tr, schedule) && i < |tr| && Approving(PhaseOf(tr[i], c), p)
    ensures j < i && VerifiesUnderLock(hash, tr[j], c, p, tr[i].rows)
  {
    j := 0;
    assert PhaseOf(tr[0], c) == Idle;
    if i > 0 {
      ApprovingMove(cat, hash, tr, schedule, i - 1, c, p);
      if Approving(PhaseOf(tr[i - 1], c), p) {
        j := ApprovingSince(cat, hash, tr, schedule, i - 1, c, p);
      } else {
        j := i - 1;
      }
    }
  }

  /** Whatever is done to the files from outside, an approval commits only if its
      evidence verified at some moment of its own transaction, under the lock and
      over the very rows it commits to. */
  lemma ApprovalsVerified(cat: Catalog, hash: Digest, tr: seq<System>, schedule: Schedule, i: nat, act: Action)
    returns (j: nat)
    requires SystemRun(cat, hash, tr, schedule) && i < |schedule|
    requires act.Approve? && tr[i + 1].log == tr[i].log + [act]
    ensures j < i && schedule[i].Some? && VerifiesUnderLock(hash, tr[j], schedule[i].value.0, act.p, tr[i].rows)
  {
    assert MoveAt(cat, hash, tr, schedule, i);
    assert tr[i + 1].log != tr[i].log;
    var (c, l) := schedule[i].value;
    if !l.Commit? { RowsStay(cat, hash, tr[i], c, l, tr[i + 1]); }
    assert tr[i + 1].log[|tr[i].log|] == act;
    j := ApprovingSince(cat, hash, tr, schedule, i, c, act.p);
  }
}
