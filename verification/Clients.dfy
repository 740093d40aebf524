/** Many clients on one database and one evidence directory, one small step at a
    time: any interleaving, declaration versions switching between calls, and an
    exception or a crash at any point. */
module Clients {
  import opened Text
  import opened Events
  import opened Reads
  import opened Declarations
  import opened Lifecycle
  import opened Evidence
  import opened SqliteStore
  import P = Publication

  /** A transaction decided on under the lock; data is the evidence it binds. */
  datatype Job =
    | ProposeJob(d: Declaration, data: Bytes)
    | RejectJob(p: Row)
    | ApproveJob(d: Declaration, p: Row)
    | DemoteJob(d: Declaration, data: Bytes)

  datatype Phase =
    | Idle
    | Proposing(d: Declaration, scope: Option<string>, toPosition: Position, data: Bytes, w: nat) // storing evidence
    | ProposeLocked(d: Declaration, scope: Option<string>, toPosition: Position, data: Bytes)
    | ApproveLocked(motionId: string)
    | EvidenceVerified(p: Row)
    | RejectLocked(motionId: string)
    | Demoting(d: Declaration, scope: Option<string>)          // loaded once, not yet locked
    | DemoteLocked(d: Declaration, scope: Option<string>)
    | DemoteStoring(d: Declaration, scope: Option<string>, data: Bytes, w: nat)
    | Inserting(job: Job, template: Row, written: seq<Row>)

  datatype System = System(
    rows: set<Row>, log: seq<Action>, writer: Option<nat>, clients: map<nat, Phase>,
    current: map<string, Declaration>, dir: P.Directory, bound: map<string, Bytes>)

  function KindsOfJob(job: Job): seq<EventKind>
  {
    match job
    case ProposeJob(_, _) => [MotionProposed]
    case RejectJob(_) => [MotionRejected]
    case ApproveJob(_, _) => [MotionApproved, PositionChanged]
    case DemoteJob(_, _) => [MotionProposed, MotionApproved, PositionChanged]
  }

  function ActionOf(job: Job, written: seq<Row>): Action
    requires |written| == |KindsOfJob(job)|
  {
    match job
    case ProposeJob(d, _) => Propose(d, written[0])
    case RejectJob(p) => Reject(p, written[0])
    case ApproveJob(d, p) => Approve(d, p, written[0], written[1])
    case DemoteJob(d, _) => Demote(d, written[0], written[1], written[2])
  }

  /** The evidence a new motion is bound to; later rows copy their proposal's. */
  function Binding(job: Job, motionId: string): map<string, Bytes>
  {
    match job
    case ProposeJob(_, data) => map[motionId := data]
    case DemoteJob(_, data) => map[motionId := data]
    case _ => map[]
  }

  predicate HoldsLock(ph: Phase)
  {
    !ph.Idle? && !ph.Proposing? && !ph.Demoting?
  }

  function PhaseOf(s: System, c: nat): Phase
  {
    if c in s.clients then s.clients[c] else Idle
  }

  // ----- Steps -----

  datatype Label =
    | Switch(d: Declaration)
    | Publish(e: P.Event)
    | StartPropose(scope: Option<string>, toPosition: Position, data: Bytes, task: string, w: nat)
    | StartDemote(task: string, scope: Option<string>)
    | Lock(next: Phase)
    | CheckDemotion(data: Bytes, w: nat)
    | VerifyApproval(p: Row)
    | Decide(job: Job, template: Row)
    | Insert(row: Row)
    | Commit
    | Abort

  /** The writer w has put data at its address and finished. */
  predicate Finished(dir: P.Directory, w: nat, data: Bytes)
  {
    w in dir.writers && dir.writers[w] == P.Done(data, P.Stored)
  }

  /** Acquiring the lock: from where, to where. */
  predicate MayLock(dir: P.Directory, ph: Phase, next: Phase)
  {
    match next
    case ProposeLocked(d, scope, to, data) =>
      ph.Proposing? && ph == Proposing(d, scope, to, data, ph.w) && Finished(dir, ph.w, data)
    case ApproveLocked(_) => ph.Idle?
    case RejectLocked(_) => ph.Idle?
    case DemoteLocked(d, scope) => ph == Demoting(d, scope)
    case _ => false
  }

  /** The row a new motion's rows copy, bound to its evidence. */
  ghost predicate NewMotion(t: set<Row>, hash: Digest, d: Declaration, scope: Option<string>, data: Bytes,
                            template: Row)
  {
    && TripleOf(template) == TripleFor(d, scope) && template.fromPosition == Fold(t, d, scope)
    && template.evidenceSha256 == hash(data) && template.evidenceRef == RefFor(hash(data))
  }

  /** Deciding, under the lock, what to write. */
  ghost predicate MayDecide(hash: Digest, s: System, ph: Phase, job: Job, template: Row)
  {
    match job
    case ProposeJob(d, data) =>
      && ph.ProposeLocked? && ph.d == d && ph.data == data
      && NewMotion(s.rows, hash, d, ph.scope, data, template)
      && template.toPosition == ph.toPosition && DeclaredTransition(d, template.fromPosition, template.toPosition)
    case RejectJob(p) =>
      ph == RejectLocked(p.motionId) && Open(s.rows, p) && template == p
    case ApproveJob(d, p) =>
      && ph == EvidenceVerified(p) && template == p
      && p.task in s.current && s.current[p.task] == d && d.version == p.declarationVersion
      && DeclaredTransition(d, p.fromPosition, p.toPosition) && !Stale(s.rows, p)
    case DemoteJob(d, data) =>
      && ph.DemoteStoring? && ph.d == d && ph.data == data && Finished(s.dir, ph.w, data)
      && NewMotion(s.rows, hash, d, ph.scope, data, template)
      && template.toPosition == d.demotion.toPosition
  }

  /** H2, second half: no call of `demote` is between its two loads for this task. */
  ghost predicate NoDemotionBetweenLoads(s: System, task: string)
  {
    forall c :: c in s.clients && (s.clients[c].Demoting? || s.clients[c].DemoteLocked?) ==> s.clients[c].d.task != task
  }

  /** A step of client c. */
  ghost predicate ClientStep(cat: Catalog, hash: Digest, s: System, c: nat, l: Label, s': System)
  {
    var ph := PhaseOf(s, c);
    match l
    case StartPropose(scope, to, data, task, w) =>
      && ph.Idle? && task in s.current && ScopeAllowed(s.current[task], scope)
      && DeclaredTransition(s.current[task], Fold(s.rows, s.current[task], scope), to) && data != []
      && P.Next(hash, s.dir, P.Start(w, data), s'.dir)
      && s' == s.(clients := s.clients[c := Proposing(s.current[task], scope, to, data, w)], dir := s'.dir)
    case StartDemote(task, scope) =>
      && ph.Idle? && task in s.current && ScopeAllowed(s.current[task], scope)
      && s' == s.(clients := s.clients[c := Demoting(s.current[task], scope)])
    case Lock(next) =>
      s.writer.None? && MayLock(s.dir, ph, next) && s' == s.(writer := Some(c), clients := s.clients[c := next])
    case CheckDemotion(data, w) =>
      && ph.DemoteLocked? && ph.d.task in s.current && ScopeAllowed(s.current[ph.d.task], ph.scope)
      && Fold(s.rows, s.current[ph.d.task], ph.scope) == ph.d.demotion.fromPosition
      && P.Next(hash, s.dir, P.Start(w, data), s'.dir)
      && s' == s.(clients := s.clients[c := DemoteStoring(ph.d, ph.scope, data, w)], dir := s'.dir)
    case VerifyApproval(p) =>
      && ph == ApproveLocked(p.motionId) && Open(s.rows, p)
      && Verify(hash, s.dir.files, p.evidenceRef, p.evidenceSha256).Success?
      && s' == s.(clients := s.clients[c := EvidenceVerified(p)])
    case Decide(job, template) =>
      MayDecide(hash, s, ph, job, template) && s' == s.(clients := s.clients[c := Inserting(job, template, [])])
    case Insert(row) =>
      && ph.Inserting? && |ph.written| < |KindsOfJob(ph.job)|
      && Copies(row, ph.template, KindsOfJob(ph.job)[|ph.written|])
      && Admits(s.rows + RowsOf(ph.written), {row})
      && s' == s.(clients := s.clients[c := ph.(written := ph.written + [row])])
    case Commit =>
      && ph.Inserting? && |ph.written| == |KindsOfJob(ph.job)|
      && s' == s.(rows := s.rows + RowsOf(ph.written), log := s.log + [ActionOf(ph.job, ph.written)], writer := None,
                  clients := s.clients[c := Idle], bound := s.bound + Binding(ph.job, ph.template.motionId))
    case Abort =>
      s' == s.(clients := s.clients[c := Idle], writer := if s.writer == Some(c) then None else s.writer)
    case _ => false
  }

  /** Any step: a client's, another evidence writer's, or a version switch. */
  ghost predicate Next(cat: Catalog, hash: Digest, s: System, c: nat, l: Label, s': System)
  {
    match l
    case Switch(d) =>
      Declares(cat, d) && NoDemotionBetweenLoads(s, d.task) && s' == s.(current := s.current[d.task := d])
    case Publish(e) =>
      P.Next(hash, s.dir, e, s'.dir) && s' == s.(dir := s'.dir)
    case _ => ClientStep(cat, hash, s, c, l, s')
  }

  /** Outside interference with stored files. */
  ghost predicate Tamper(s: System, s': System)
  {
    s' == s.(dir := s.dir.(files := s'.dir.files))
  }

  ghost predicate Initial(s: System)
  {
    && s.rows == {} && s.log == [] && s.writer.None? && s.clients == map[] && s.current == map[] && s.bound == map[]
    && s.dir.writers == map[] && s.dir.temps == map[]
  }
}
