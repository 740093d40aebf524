/** The lifecycle calls as programs over the store: each opens its own
    transaction, and on any failure rolls it back.

    Ids, times, actors, loaded declarations, the digest and what other clients
    do in between are parameters, so every contract holds for all of them. */
module Service {
  import opened Text
  import opened Events
  import opened Reads
  import opened Declarations
  import opened Lifecycle
  import opened Motions
  import opened Resolution
  import opened Evidence
  import opened SqliteStore
  import opened Decisions
  import opened Answers

  // ----- Inside a transaction -----

  /** Inserts the next of `rows`, or shows that they cannot all be stored. */
  method InsertNext(store: SqliteEventStore, ghost before: seq<Row>, ghost rows: seq<Row>, ghost i: nat, row: Row)
    returns (r: Option<StoreError>)
    requires store.Valid() && store.Holding() && i < |rows| && row == rows[i]
    requires store.Visible() == before + rows[..i]
    modifies store.db`pending, store.db`writer
    ensures store.Valid() && store.Holding()
    ensures r.None? ==> store.Visible() == before + rows[..i + 1]
    ensures r.Some? ==> r == Some(ConstraintViolated) && !Consistent(before + rows)
  {
    store.VisibleConsistent();
    AppendOne(before, rows, i);
    r := store.Insert(row);
  }

  /** Appends one sibling of p for each kind, in order, until one is refused. */
  method InsertKinds(store: SqliteEventStore, p: Row, kinds: seq<EventKind>, draw: nat -> Stamp, actor: string,
                     reason: string)
    returns (r: Option<StoreError>)
    requires store.Valid() && store.Holding()
    modifies store.db`pending, store.db`writer
    ensures store.Valid() && store.Holding()
    ensures var rows := Siblings(p, kinds, draw, actor, reason);
            if Consistent(old(store.Visible()) + rows)
            then r.None? && store.Visible() == old(store.Visible()) + rows
            else r == Some(ConstraintViolated)
  {
    ghost var before := store.Visible();
    ghost var rows := Siblings(p, kinds, draw, actor, reason);
    for i := 0 to |kinds|
      invariant store.Valid() && store.Holding()
      invariant store.Visible() == before + rows[..i]
    {
      var row := Sibling(p, kinds[i], draw(i), actor, reason);
      r := InsertNext(store, before, rows, i, row);
      if r.Some? { return; }
    }
    assert rows[..|kinds|] == rows;
    store.VisibleConsistent();
    r := None;
  }

  method ReadMotion(store: SqliteEventStore, motionId: string) returns (events: seq<Row>, byEvent: map<EventKind, Row>)
    requires store.Valid()
    ensures byEvent == ByEvent(events)
    ensures forall k :: Get(byEvent, k) == Find(RowsOf(store.Visible()), motionId, k)
    ensures Project(events) == View(RowsOf(store.Visible()), motionId)
  {
    events := store.GetAutonomyEventsForMotion(motionId);
    store.VisibleConsistent();
    ProjectIsView(RowsOf(store.Visible()), motionId, events);
    byEvent := ByEvent(events);
  }

  /** Ends the transaction the way the context manager does. */
  method Finish<T>(store: SqliteEventStore, r: Result<T, ServiceError>)
    requires store.Valid() && store.Holding()
    modifies store, store.db
    ensures store.Valid() && !store.inTransaction && store.db.writer == None && store.db.pending == []
    ensures store.db.committed == if r.Success? then old(store.Visible()) else old(store.db.committed)
  {
    if r.Success? { store.Commit(); } else { store.Rollback(); }
  }

  /** The answer of a call that cannot start its transaction. */
  ghost function Blocked(inTransaction: bool, writer: Option<nat>): Option<ServiceError>
  {
    if inTransaction then Some(StoreFailed(NestedTransaction))
    else if writer.Some? then Some(StoreFailed(Locked))
    else None
  }

  /** The store is as before except that `rows` were committed. */
  twostate predicate Committed(store: SqliteEventStore, rows: seq<Row>)
    reads store, store.db
  {
    && store.Valid() && store.inTransaction == old(store.inTransaction)
    && store.db.writer == old(store.db.writer) && store.db.pending == old(store.db.pending)
    && store.db.committed == old(store.db.committed) + rows
  }

  /** Inserts the siblings of p and projects the motion from what is then read. */
  method Record(store: SqliteEventStore, p: Row, kinds: seq<EventKind>, draw: nat -> Stamp, actor: string,
                reason: string)
    returns (r: Result<Motion, ServiceError>)
    requires store.Valid() && store.Holding()
    requires (exists e :: e in store.Visible() && Of(e, p.motionId, MotionProposed)) ||
             (|kinds| > 0 && kinds[0] == MotionProposed)
    modifies store.db`pending, store.db`writer
    ensures store.Valid() && store.Holding()
    ensures var rows := Siblings(p, kinds, draw, actor, reason);
            if Consistent(old(store.Visible()) + rows)
            then
              && r.Success? && store.Visible() == old(store.Visible()) + rows
              && View(RowsOf(store.Visible()), p.motionId) == ToOption(r)
            else r == Failure(StoreFailed(ConstraintViolated))
  {
    ghost var rows := Siblings(p, kinds, draw, actor, reason);
    ghost var proposal: Row;
    if e :| e in store.Visible() && Of(e, p.motionId, MotionProposed) {
      proposal := e;
    } else {
      proposal := rows[0];
      assert rows[0] == Sibling(p, kinds[0], draw(0), actor, reason);
    }
    var inserted := InsertKinds(store, p, kinds, draw, actor, reason);
    if inserted.Some? { return Failure(StoreFailed(inserted.value)); }
    assert proposal in store.Visible();
    ProposalStillFound(store, proposal);
    var events, _ := ReadMotion(store, p.motionId);
    r := Success(Project(events).value);
  }

  // ----- Approve -----

  method ApproveBody(store: SqliteEventStore, motionId: string, reason: string, actor: string,
                     hash: Digest, root: EvidenceRoot, loaded: Loaded, draw: nat -> Stamp)
    returns (r: Result<Motion, ServiceError>)
    requires store.Valid() && store.Holding() && store.db.pending == []
    modifies store.db`pending, store.db`writer
    ensures store.Valid() && store.Holding()
    ensures var t := RowsOf(store.db.committed);
            match ApproveVerdict(t, motionId, hash, root.files, loaded)
            case Refuse(e) => r == Failure(e)
            case Repeat => r == Success(View(t, motionId).value) && store.Visible() == store.db.committed
            case Write =>
              var rows := Siblings(Find(t, motionId, MotionProposed).value, [MotionApproved, PositionChanged], draw,
                                   actor, reason);
              if Consistent(store.db.committed + rows)
              then
                && r.Success? && store.Visible() == store.db.committed + rows
                && View(RowsOf(store.Visible()), motionId) == ToOption(r)
              else r == Failure(StoreFailed(ConstraintViolated))
  {
    assert store.Visible() == store.db.committed;
    var events, byEvent := ReadMotion(store, motionId);
    if MotionProposed !in byEvent { return Failure(NotFound); }
    var p := byEvent[MotionProposed];
    var rejected, approved := Get(byEvent, MotionRejected), Get(byEvent, MotionApproved);
    var changed := Get(byEvent, PositionChanged);
    assert Get(byEvent, MotionProposed) == Some(p);
    if rejected.Some? {
      return Failure(if approved.Some? || changed.Some? then CorruptHistory else TerminalMotion);
    }
    if approved.Some? && changed.Some? {
      if SameIdentity(approved.value, p) && SameIdentity(changed.value, p) {
        return Success(Project(events).value);
      }
      return Failure(CorruptHistory);
    }
    if approved.Some? || changed.Some? { return Failure(CorruptHistory); }

    var verified := Verify(hash, root.files, p.evidenceRef, p.evidenceSha256);
    if verified.Failure? { return Failure(EvidenceFailed(verified.error)); }
    var found := Lookup(loaded, p.task);
    if found.None? { return Failure(NoDeclaration); }
    var d := found.value;
    if d.version != p.declarationVersion { return Failure(VersionDrift); }
    if !DeclaredTransition(d, p.fromPosition, p.toPosition) { return Failure(Undeclared); }
    var baseline := store.GetPositionChangedEventBefore(TripleOf(p), p.createdAt, p.id);
    var latestNow := store.GetLatestPositionChangedEvent(TripleOf(p));
    if IdOf(baseline) != IdOf(latestNow) { return Failure(StaleProposal); }

    assert Of(p, motionId, MotionProposed);
    r := Record(store, p, [MotionApproved, PositionChanged], draw, actor, reason);
  }

  function ToOption<T>(r: Result<T, ServiceError>): Option<T>
  {
    if r.Success? then Some(r.value) else None
  }

  lemma ProposalStillFound(store: SqliteEventStore, p: Row)
    requires store.Valid() && p in store.Visible() && p.event == MotionProposed
    ensures View(RowsOf(store.Visible()), p.motionId).Some?
  {
    store.VisibleConsistent();
    FindIs(RowsOf(store.Visible()), p);
  }

  /** Approves and executes in one transaction, or answers why not and leaves
      the store as it was. */
  method Approve(store: SqliteEventStore, motionId: string, reason: string, actor: Option<string>,
                 hash: Digest, root: EvidenceRoot, loaded: Loaded, draw: nat -> Stamp)
    returns (r: Result<Motion, ServiceError>)
    requires store.Valid()
    modifies store, store.db
    ensures reason == "" ==> r == Failure(MissingReason)
    ensures reason != "" && actor.None? ==> r == Failure(NoActor)
    ensures reason != "" && actor.Some? && Blocked(old(store.inTransaction), old(store.db.writer)).Some? ==>
              r == Failure(Blocked(old(store.inTransaction), old(store.db.writer)).value)
    ensures r.Failure? ==> Committed(store, [])
    ensures reason != "" && actor.Some? && Blocked(old(store.inTransaction), old(store.db.writer)).None? ==>
              var t := RowsOf(old(store.db.committed));
              match ApproveVerdict(t, motionId, hash, root.files, loaded)
              case Refuse(e) => r == Failure(e)
              case Repeat => r == Success(View(t, motionId).value) && Committed(store, [])
              case Write =>
                var rows := Siblings(Find(t, motionId, MotionProposed).value, [MotionApproved, PositionChanged], draw,
                                     actor.value, reason);
                if Consistent(old(store.db.committed) + rows)
                then r.Success? && Committed(store, rows) && View(RowsOf(store.db.committed), motionId) == ToOption(r)
                else r == Failure(StoreFailed(ConstraintViolated))
    ensures r.Success? && store.db.committed != old(store.db.committed) ==>
              && actor.Some?
              && exists p :: p in old(store.db.committed) && p.motionId == motionId && p.event == MotionProposed &&
                             Wrote(old(store.db.committed), store.db.committed, p, [MotionApproved, PositionChanged],
                                   draw, actor.value, reason)
  {
    assert store.db.committed + [] == store.db.committed;
    if reason == "" { return Failure(MissingReason); }
    if actor.None? { return Failure(NoActor); }
    var begun := store.BeginImmediate();
    if begun.Some? { return Failure(StoreFailed(begun.value)); }
    assert store.Visible() == store.db.committed;
    r := ApproveBody(store, motionId, reason, actor.value, hash, root, loaded, draw);
    Finish(store, r);
    ghost var found := Find(RowsOf(old(store.db.committed)), motionId, MotionProposed);
    if found.Some? {
      SiblingsWrote(old(store.db.committed), found.value, [MotionApproved, PositionChanged], draw, actor.value, reason);
    }
  }

  // ----- Reject -----

  method RejectBody(store: SqliteEventStore, motionId: string, reason: string, actor: string, stamp: Stamp)
    returns (r: Result<Motion, ServiceError>)
    requires store.Valid() && store.Holding() && store.db.pending == []
    modifies store.db`pending, store.db`writer
    ensures store.Valid() && store.Holding()
    ensures var t := RowsOf(store.db.committed);
            match RejectVerdict(t, motionId)
            case Refuse(e) => r == Failure(e)
            case Repeat => r == Success(View(t, motionId).value) && store.Visible() == store.db.committed
            case Write =>
              var row := Sibling(Find(t, motionId, MotionProposed).value, MotionRejected, stamp, actor, reason);
              if Consistent(store.db.committed + [row])
              then
                && r.Success? && store.Visible() == store.db.committed + [row]
                && View(RowsOf(store.Visible()), motionId) == ToOption(r)
              else r == Failure(StoreFailed(ConstraintViolated))
  {
    assert store.Visible() == store.db.committed;
    var events, byEvent := ReadMotion(store, motionId);
    if MotionProposed !in byEvent { return Failure(NotFound); }
    var p := byEvent[MotionProposed];
    var rejected, approved := Get(byEvent, MotionRejected), Get(byEvent, MotionApproved);
    var changed := Get(byEvent, PositionChanged);
    assert Get(byEvent, MotionProposed) == Some(p);
    if rejected.Some? {
      if approved.Some? || changed.Some? { return Failure(CorruptHistory); }
      if SameIdentity(rejected.value, p) { return Success(Project(events).value); }
      return Failure(CorruptHistory);
    }
    if approved.Some? || changed.Some? { return Failure(TerminalMotion); }
    var row := Sibling(p, MotionRejected, stamp, actor, reason);
    store.VisibleConsistent();
    ConsistentExtend(store.Visible(), row);
    var inserted := store.Insert(row);
    if inserted.Some? { return Failure(StoreFailed(inserted.value)); }
    ProposalStillFound(store, p);
    events, byEvent := ReadMotion(store, motionId);
    r := Success(Project(events).value);
  }

  method Reject(store: SqliteEventStore, motionId: string, reason: string, actor: Option<string>, stamp: Stamp)
    returns (r: Result<Motion, ServiceError>)
    requires store.Valid()
    modifies store, store.db
    ensures reason == "" ==> r == Failure(MissingReason)
    ensures reason != "" && actor.None? ==> r == Failure(NoActor)
    ensures reason != "" && actor.Some? && Blocked(old(store.inTransaction), old(store.db.writer)).Some? ==>
              r == Failure(Blocked(old(store.inTransaction), old(store.db.writer)).value)
    ensures r.Failure? ==> Committed(store, [])
    ensures reason != "" && actor.Some? && Blocked(old(store.inTransaction), old(store.db.writer)).None? ==>
              var t := RowsOf(old(store.db.committed));
              match RejectVerdict(t, motionId)
              case Refuse(e) => r == Failure(e)
              case Repeat => r == Success(View(t, motionId).value) && Committed(store, [])
              case Write =>
                var row := Sibling(Find(t, motionId, MotionProposed).value, MotionRejected, stamp, actor.value, reason);
                if Consistent(old(store.db.committed) + [row])
                then r.Success? && Committed(store, [row]) && View(RowsOf(store.db.committed), motionId) == ToOption(r)
                else r == Failure(StoreFailed(ConstraintViolated))
    ensures r.Success? && store.db.committed != old(store.db.committed) ==>
              && actor.Some?
              && |store.db.committed| == |old(store.db.committed)| + 1
              && store.db.committed[..|old(store.db.committed)|] == old(store.db.committed)
              && exists p :: p in old(store.db.committed) && p.motionId == motionId && p.event == MotionProposed &&
                             Records(store.db.committed[|old(store.db.committed)|], p, MotionRejected, stamp,
                                     actor.value, reason)
  {
    assert store.db.committed + [] == store.db.committed;
    if reason == "" { return Failure(MissingReason); }
    if actor.None? { return Failure(NoActor); }
    var begun := store.BeginImmediate();
    if begun.Some? { return Failure(StoreFailed(begun.value)); }
    assert store.Visible() == store.db.committed;
    r := RejectBody(store, motionId, reason, actor.value, stamp);
    Finish(store, r);
    ghost var found := Find(RowsOf(old(store.db.committed)), motionId, MotionProposed);
    if found.Some? { SiblingRecords(found.value, MotionRejected, stamp, actor.value, reason); }
  }

  // ----- Propose -----

  method FoldCurrentPosition(store: SqliteEventStore, d: Declaration, scope: Option<string>)
    returns (p: Position, latest: Option<Row>)
    requires store.Valid()
    ensures latest == Latest(RowsOf(store.Visible()), TripleFor(d, scope))
    ensures p == Fold(RowsOf(store.Visible()), d, scope)
  {
    latest := store.GetLatestPositionChangedEvent(TripleFor(d, scope));
    p := PositionAfter(d, latest);
  }

  /** The snapshot names its declaration and scope, and the change in force, if any. */
  predicate Snapshot(r: PositionResolution, d: Declaration, scope: Option<string>, latest: Option<Row>)
  {
    && r.task == d.task && r.declarationVersion == d.version && r.deployment == d.deployment && r.scope == scope
    && (latest.None? ==>
          r.position == d.initialPosition && r.source == DeclarationInitial && r.sourceEventId == None)
    && (latest.Some? ==>
          && r.position == latest.value.toPosition && r.source == PositionEvent
          && r.sourceEventId == Some(latest.value.id))
  }

  /** The authorization snapshot of one attempt: one load, one read, no lock. */
  method ResolvePosition(store: SqliteEventStore, loaded: Loaded, task: string, scope: Option<string>)
    returns (r: Result<PositionResolution, ServiceError>)
    requires store.Valid()
    ensures match Lookup(loaded, task)
            case None => r == Failure(NoDeclaration)
            case Some(d) =>
              if !ScopeAllowed(d, scope) then r == Failure(InvalidScope)
              else
                var latest := Latest(RowsOf(store.Visible()), TripleFor(d, scope));
                r == Success(ToPositionResolution(Resolved(d, scope, latest)))
    ensures r.Success? ==>
              && loaded.Some? && task in loaded.value && ListsScope(loaded.value[task], scope)
              && Snapshot(r.value, loaded.value[task], scope,
                          Latest(RowsOf(store.Visible()), TripleFor(loaded.value[task], scope)))
  {
    var found := Lookup(loaded, task);
    if found.None? { return Failure(NoDeclaration); }
    if !ScopeAllowed(found.value, scope) { return Failure(InvalidScope); }
    var _, latest := FoldCurrentPosition(store, found.value, scope);
    r := Success(ToPositionResolution(Resolved(found.value, scope, latest)));
  }

  /** The part of `propose` under the lock: the position is read again, and the
      transition checked again, in the transaction that records them. */
  method ProposeBody(store: SqliteEventStore, d: Declaration, scope: Option<string>, toPosition: Position,
                     evidence: (string, string), motionId: string, stamp: Stamp, actor: string, reason: Option<string>)
    returns (r: Result<Motion, ServiceError>)
    requires store.Valid() && store.Holding() && store.db.pending == []
    modifies store.db`pending, store.db`writer
    ensures store.Valid() && store.Holding()
    ensures var t := RowsOf(store.db.committed);
            match TransitionVerdict(t, d, scope, toPosition)
            case Refuse(e) => r == Failure(e)
            case _ =>
              var row := ProposalRow(d, scope, Fold(t, d, scope), toPosition, evidence, motionId, stamp, actor, reason);
              if Consistent(store.db.committed + [row])
              then
                && r.Success? && store.Visible() == store.db.committed + [row]
                && View(RowsOf(store.Visible()), motionId) == ToOption(r)
              else r == Failure(StoreFailed(ConstraintViolated))
  {
    assert store.Visible() == store.db.committed;
    var fromPosition, _ := FoldCurrentPosition(store, d, scope);
    if !DeclaredTransition(d, fromPosition, toPosition) { return Failure(Undeclared); }
    var row := ProposalRow(d, scope, fromPosition, toPosition, evidence, motionId, stamp, actor, reason);
    store.VisibleConsistent();
    ConsistentExtend(store.Visible(), row);
    var inserted := store.Insert(row);
    if inserted.Some? { return Failure(StoreFailed(inserted.value)); }
    ProposalStillFound(store, row);
    var events, _ := ReadMotion(store, motionId);
    r := Success(Project(events).value);
  }

  /** What the transaction of `propose` answers, and leaves committed, over `base`. */
  ghost predicate ProposalOutcome(blocked: Option<ServiceError>, base: seq<Row>, after: seq<Row>, d: Declaration,
                                  scope: Option<string>, toPosition: Position, evidence: (string, string),
                                  motionId: string, stamp: Stamp, actor: string, reason: Option<string>,
                                  r: Result<Motion, ServiceError>)
  {
    if blocked.Some? then r == Failure(blocked.value) && after == base
    else
      match TransitionVerdict(RowsOf(base), d, scope, toPosition)
      case Refuse(e) => r == Failure(e) && after == base
      case _ =>
        var row := ProposalRow(d, scope, Fold(RowsOf(base), d, scope), toPosition, evidence, motionId, stamp, actor,
                               reason);
        if Consistent(base + [row])
        then r.Success? && after == base + [row] && View(RowsOf(base + [row]), motionId) == ToOption(r)
        else r == Failure(StoreFailed(ConstraintViolated)) && after == base
  }

  /** The transaction of `propose`, after other clients have committed `arrivals`. */
  method ProposeLocked(store: SqliteEventStore, d: Declaration, scope: Option<string>, toPosition: Position,
                       evidence: (string, string), motionId: string, stamp: Stamp, actor: string,
                       reason: Option<string>, arrivals: seq<Row>)
    returns (r: Result<Motion, ServiceError>)
    requires store.Valid() && Consistent(store.db.committed + arrivals) && (store.db.writer.Some? ==> arrivals == [])
    modifies store, store.db
    ensures store.Valid() && store.inTransaction == old(store.inTransaction)
    ensures store.db.writer == old(store.db.writer) && store.db.pending == old(store.db.pending)
    ensures ProposalOutcome(Blocked(old(store.inTransaction), old(store.db.writer)),
                            old(store.db.committed) + arrivals, store.db.committed, d, scope, toPosition,
                            evidence, motionId, stamp, actor, reason, r)
  {
    if store.db.writer.None? {
      store.db.Arrive(arrivals);
    } else {
      assert store.db.committed + [] == store.db.committed;
    }
    var begun := store.BeginImmediate();
    if begun.Some? { return Failure(StoreFailed(begun.value)); }
    assert store.Visible() == store.db.committed by { assert store.db.committed + [] == store.db.committed; }
    r := ProposeBody(store, d, scope, toPosition, evidence, motionId, stamp, actor, reason);
    Finish(store, r);
  }

  /** The advisory checks: they save an obviously wrong request from leaving an
      orphan artifact. */
  method CheckProposal(store: SqliteEventStore, loaded: Loaded, task: string, scope: Option<string>,
                       toPosition: Position, source: Option<Bytes>) returns (v: Verdict)
    requires store.Valid()
    ensures v == ProposePrecheck(RowsOf(store.Visible()), loaded, task, scope, toPosition, source)
  {
    var found := Lookup(loaded, task);
    if found.None? { return Refuse(NoDeclaration); }
    var d := found.value;
    if !ScopeAllowed(d, scope) { return Refuse(InvalidScope); }
    if toPosition.OtherPosition? { return Refuse(InvalidPosition); }
    var provisional, _ := FoldCurrentPosition(store, d, scope);
    if !DeclaredTransition(d, provisional, toPosition) { return Refuse(Undeclared); }
    if source.None? { return Refuse(EvidenceFailed(NotRegular)); }
    if source.value == [] { return Refuse(EmptyEvidence); }
    v := Write;
  }

  /** Records one proposal.  `arrivals` is what other clients commit, and
      `between` what they publish, after this call's first checks. */
  method Propose(store: SqliteEventStore, hash: Digest, root: EvidenceRoot, loaded: Loaded, task: string,
                 scope: Option<string>, toPosition: Position, source: Option<Bytes>, actor: Option<string>,
                 reason: Option<string>, motionId: string, stamp: Stamp, arrivals: seq<Row>, between: Files, tmp: nat)
    returns (r: Result<Motion, ServiceError>)
    requires store.Valid() && Digests(hash) && tmp !in root.temps
    requires Consistent(store.db.committed + arrivals) && (store.db.writer.Some? ==> arrivals == [])
    modifies store, store.db, root
    ensures store.Valid() && store.inTransaction == old(store.inTransaction) && root.temps == old(root.temps)
    ensures store.db.writer == old(store.db.writer) && store.db.pending == old(store.db.pending)
    ensures var check := ProposePrecheck(RowsOf(old(store.Visible())), loaded, task, scope, toPosition, source);
            match check
            case Refuse(e) =>
              r == Failure(e) && store.db.committed == old(store.db.committed) && root.files == old(root.files)
            case _ =>
              var (files, stored) := Storing(hash, old(root.files), between, source.value);
              root.files == files &&
              if stored.Failure? || actor.None? then
                && r == Failure(if stored.Failure? then EvidenceFailed(stored.error) else NoActor)
                && store.db.committed == old(store.db.committed)
              else
                ProposalOutcome(Blocked(old(store.inTransaction), old(store.db.writer)),
                                old(store.db.committed) + arrivals, store.db.committed, Lookup(loaded, task).value,
                                scope, toPosition, stored.value, motionId, stamp, actor.value, reason, r)
    ensures r.Success? ==>
              && actor.Some? && source.Some? && loaded.Some? && task in loaded.value
              && Proposed(old(store.db.committed) + arrivals, store.db.committed, loaded.value[task], scope, toPosition,
                          motionId, stamp, actor.value, reason)
              && Attests(store.db.committed[|old(store.db.committed) + arrivals|], hash, root.files, source.value)
  {
    var check := CheckProposal(store, loaded, task, scope, toPosition, source);
    if check.Refuse? { return Failure(check.error); }
    var d := Lookup(loaded, task).value;
    var stored := root.StoreEvidence(hash, source.value, between, tmp);
    if stored.Failure? { return Failure(EvidenceFailed(stored.error)); }
    if actor.None? { return Failure(NoActor); }
    r := ProposeLocked(store, d, scope, toPosition, stored.value, motionId, stamp, actor.value, reason, arrivals);
    if r.Success? {
      OutcomeProposes(old(store.db.committed) + arrivals, store.db.committed, d, scope, toPosition, stored.value,
                      motionId, stamp, actor.value, reason, r);
    }
  }

  /** after is base and one proposal, in a scope the declaration lists and along one
      of its edges, from the position the rows of base fold to. */
  ghost predicate Proposed(base: seq<Row>, after: seq<Row>, d: Declaration, scope: Option<string>, toPosition: Position,
                           motionId: string, stamp: Stamp, actor: string, reason: Option<string>)
  {
    var fromPosition := Fold(RowsOf(base), d, scope);
    && |after| == |base| + 1 && after[..|base|] == base && ListsScope(d, scope) && OnEdge(d, fromPosition, toPosition)
    && RecordsProposal(after[|base|], d, scope, fromPosition, toPosition, motionId, stamp, actor, reason)
  }

  lemma OutcomeProposes(base: seq<Row>, after: seq<Row>, d: Declaration, scope: Option<string>, toPosition: Position,
                        evidence: (string, string), motionId: string, stamp: Stamp, actor: string,
                        reason: Option<string>, r: Result<Motion, ServiceError>)
    requires ProposalOutcome(None, base, after, d, scope, toPosition, evidence, motionId, stamp, actor, reason, r)
    requires r.Success? && ScopeAllowed(d, scope)
    ensures Proposed(base, after, d, scope, toPosition, motionId, stamp, actor, reason)
    ensures after[|base|].evidenceRef == evidence.0 && after[|base|].evidenceSha256 == evidence.1
  {
    ProposalRecords(d, scope, Fold(RowsOf(base), d, scope), toPosition, evidence, motionId, stamp, actor, reason);
  }

  // ----- Demote -----

  /** The facts a demotion's generated evidence records; source rows are sorted
      and deduplicated, so only their set matters. */
  datatype DemotionRecord = DemotionRecord(task: string, declarationVersion: int, scope: Option<string>, actor: string,
                                           reason: string, sourceRows: set<string>, generatedAt: string)

  /** What the transaction of `demote` answers over `base`, and what it leaves in
      the store and in the evidence directory. */
  ghost predicate DemotionOutcome(base: seq<Row>, after: seq<Row>, hash: Digest, before: Files, files: Files,
                                  encode: DemotionRecord -> Bytes, first: Loaded, second: Loaded, task: string,
                                  scope: Option<string>, sourceRows: set<string>, generatedAt: string, motionId: string,
                                  draw: nat -> Stamp, actor: string, reason: string, between: Files,
                                  r: Result<Motion, ServiceError>)
    requires Lookup(first, task).Some?
  {
    match DemoteVerdict(RowsOf(base), first, second, task, scope)
    case Refuse(e) => r == Failure(e) && after == base && files == before
    case _ =>
      var d := Lookup(first, task).value;
      var data := encode(DemotionRecord(d.task, d.version, scope, actor, reason, sourceRows, generatedAt));
      var (kept, stored) := Storing(hash, before, between, data);
      files == kept &&
      if stored.Failure? then r == Failure(EvidenceFailed(stored.error)) && after == base
      else
        var template := DemotionTemplate(d, scope, d.demotion.fromPosition, stored.value, motionId, actor, reason);
        var rows := Siblings(template, DEMOTION_KINDS, draw, actor, reason);
        if Consistent(base + rows)
        then r.Success? && after == base + rows && View(RowsOf(base + rows), motionId) == ToOption(r)
        else r == Failure(StoreFailed(ConstraintViolated)) && after == base
  }

  /** The part of `demote` under the lock: `first` is what was loaded before it,
      `second` what the load under the lock answers. */
  method DemoteBody(store: SqliteEventStore, hash: Digest, root: EvidenceRoot, encode: DemotionRecord -> Bytes,
                    first: Loaded, second: Loaded, task: string, scope: Option<string>, sourceRows: set<string>,
                    generatedAt: string, motionId: string, draw: nat -> Stamp, actor: string, reason: string,
                    between: Files, tmp: nat)
    returns (r: Result<Motion, ServiceError>)
    requires store.Valid() && store.Holding() && store.db.pending == [] && Digests(hash) && tmp !in root.temps
    requires Lookup(first, task).Some?
    modifies store.db`pending, store.db`writer, root
    ensures store.Valid() && store.Holding() && root.temps == old(root.temps)
    ensures DemotionOutcome(store.db.committed, if r.Success? then store.Visible() else store.db.committed,
                            hash, old(root.files), root.files, encode, first, second, task, scope, sourceRows,
                            generatedAt, motionId, draw, actor, reason, between, r)
  {
    assert store.Visible() == store.db.committed;
    var d := Lookup(first, task).value;
    var found := Lookup(second, task);
    if found.None? { return Failure(NoDeclaration); }
    if !ScopeAllowed(found.value, scope) { return Failure(InvalidScope); }
    var current, _ := FoldCurrentPosition(store, found.value, scope);
    if current != d.demotion.fromPosition { return Failure(NotDemotionSource); }
    var data := encode(DemotionRecord(d.task, d.version, scope, actor, reason, sourceRows, generatedAt));
    var stored := root.StoreEvidence(hash, data, between, tmp);
    if stored.Failure? { return Failure(EvidenceFailed(stored.error)); }
    var template := DemotionTemplate(d, scope, current, stored.value, motionId, actor, reason);
    r := Record(store, template, DEMOTION_KINDS, draw, actor, reason);
  }

  /** One-command emergency demotion: all three events in one transaction, with
      evidence the call generates itself. */
  method Demote(store: SqliteEventStore, hash: Digest, root: EvidenceRoot, encode: DemotionRecord -> Bytes,
                first: Loaded, second: Loaded, task: string, scope: Option<string>, reason: string,
                actor: Option<string>, sourceRows: set<string>, generatedAt: string, motionId: string,
                draw: nat -> Stamp, between: Files, tmp: nat)
    returns (r: Result<Motion, ServiceError>)
    requires store.Valid() && Digests(hash) && tmp !in root.temps
    modifies store, store.db, root
    ensures store.Valid() && store.inTransaction == old(store.inTransaction) && root.temps == old(root.temps)
    ensures store.db.writer == old(store.db.writer) && store.db.pending == old(store.db.pending)
    ensures var refused :=
              if reason == "" then Some(MissingReason)
              else if Lookup(first, task).None? then Some(NoDeclaration)
              else if !ScopeAllowed(Lookup(first, task).value, scope) then Some(InvalidScope)
              else if actor.None? then Some(NoActor)
              else Blocked(old(store.inTransaction), old(store.db.writer));
            if refused.Some? then
              && r == Failure(refused.value)
              && store.db.committed == old(store.db.committed) && root.files == old(root.files)
            else
              DemotionOutcome(old(store.db.committed), store.db.committed, hash, old(root.files), root.files, encode,
                              first, second, task, scope, sourceRows, generatedAt, motionId, draw, actor.value,
                              reason, between, r)
    ensures r.Success? ==>
              && actor.Some? && first.Some? && task in first.value && ListsScope(first.value[task], scope)
              && Demoted(old(store.db.committed), store.db.committed, hash, root.files, encode, first.value[task],
                         scope, sourceRows, generatedAt, motionId, draw, actor.value, reason)
  {
    if reason == "" { return Failure(MissingReason); }
    var found := Lookup(first, task);
    if found.None? { return Failure(NoDeclaration); }
    if !ScopeAllowed(found.value, scope) { return Failure(InvalidScope); }
    if actor.None? { return Failure(NoActor); }
    var begun := store.BeginImmediate();
    if begun.Some? { return Failure(StoreFailed(begun.value)); }
    assert store.Visible() == store.db.committed by { assert store.db.committed + [] == store.db.committed; }
    r := DemoteBody(store, hash, root, encode, first, second, task, scope, sourceRows, generatedAt, motionId, draw,
                    actor.value, reason, between, tmp);
    Finish(store, r);
    if r.Success? {
      OutcomeDemotes(old(store.db.committed), store.db.committed, hash, old(root.files), root.files, encode, first,
                     second, task, scope, sourceRows, generatedAt, motionId, draw, actor.value, reason, between, r);
    }
  }

  /** The record states these facts. */
  predicate About(rec: DemotionRecord, d: Declaration, scope: Option<string>, actor: string, reason: string,
                  sourceRows: set<string>, generatedAt: string)
  {
    && rec.task == d.task && rec.declarationVersion == d.version && rec.scope == scope && rec.actor == actor
    && rec.reason == reason && rec.sourceRows == sourceRows && rec.generatedAt == generatedAt
  }

  /** after is base and the three rows of one demotion, with the record of its facts
      stored as their evidence. */
  ghost predicate Demoted(base: seq<Row>, after: seq<Row>, hash: Digest, files: Files, encode: DemotionRecord -> Bytes,
                          d: Declaration, scope: Option<string>, sourceRows: set<string>, generatedAt: string,
                          motionId: string, draw: nat -> Stamp, actor: string, reason: string)
  {
    && |after| == |base| + 3 && after[..|base|] == base
    && exists rec :: About(rec, d, scope, actor, reason, sourceRows, generatedAt) &&
         forall i :: 0 <= i < 3 ==>
           && Attests(after[|base| + i], hash, files, encode(rec))
           && RecordsDemotion(after[|base| + i], d, scope, motionId,
                              [MotionProposed, MotionApproved, PositionChanged][i], draw(i), actor, reason)
  }

  lemma OutcomeDemotes(base: seq<Row>, after: seq<Row>, hash: Digest, before: Files, files: Files,
                       encode: DemotionRecord -> Bytes, first: Loaded, second: Loaded, task: string,
                       scope: Option<string>, sourceRows: set<string>, generatedAt: string, motionId: string,
                       draw: nat -> Stamp, actor: string, reason: string, between: Files,
                       r: Result<Motion, ServiceError>)
    requires first.Some? && task in first.value && r.Success?
    requires DemotionOutcome(base, after, hash, before, files, encode, first, second, task, scope, sourceRows,
                             generatedAt, motionId, draw, actor, reason, between, r)
    ensures Demoted(base, after, hash, files, encode, first.value[task], scope, sourceRows, generatedAt, motionId, draw,
                    actor, reason)
  {
    var d := first.value[task];
    var rec := DemotionRecord(d.task, d.version, scope, actor, reason, sourceRows, generatedAt);
    var evidence := Storing(hash, before, between, encode(rec)).1.value;
    DemotionRecords(base, d, scope, evidence, motionId, draw, actor, reason);
    assert About(rec, d, scope, actor, reason, sourceRows, generatedAt);
  }
}
