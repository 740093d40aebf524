/** The vocabulary of the append-only autonomy event stream and its row type.

    Event kinds and positions arrive at the store as free text.  Each value
    outside the declared vocabulary is an `Other...` case, which the store's
    CHECK constraints refuse. */
module Events {
  import opened Text

  datatype Position = Manual | Hitl | Hotl | Autonomous | OtherPosition(text: string)

  datatype EventKind = MotionProposed | MotionApproved | MotionRejected | PositionChanged | OtherKind(text: string)

  datatype MotionStatus = Proposed | Approved | Rejected | Executed | OtherStatus(text: string)

  const CURRENT_EVENT_SCHEMA := "paa-autonomy-event/0.1.0-draft"

  /** One row: the fourteen contract fields. */
  datatype AutonomyEvent = AutonomyEvent(
    eventSchema: string, id: string, motionId: string,
    task: string, declarationVersion: int, scope: Option<string>,
    event: EventKind, fromPosition: Position, toPosition: Position,
    evidenceRef: string, evidenceSha256: string,
    actor: string, reason: string, createdAt: string)

  type Row = AutonomyEvent

  /** The exact scope of one authority: null scope is a scope of its own. */
  datatype Triple = Triple(task: string, declarationVersion: int, scope: Option<string>)

  function TripleOf(e: Row): Triple
  {
    Triple(e.task, e.declarationVersion, e.scope)
  }

  /** Agreement on the seven identity fields. */
  predicate SameIdentity(a: Row, b: Row)
  {
    && TripleOf(a) == TripleOf(b)
    && a.fromPosition == b.fromPosition && a.toPosition == b.toPosition
    && a.evidenceRef == b.evidenceRef && a.evidenceSha256 == b.evidenceSha256
  }

  /** Strictly before the point (at, id), compared as a tuple. */
  predicate BeforePoint(e: Row, at: string, id: string)
  {
    Less(e.createdAt, at) || (e.createdAt == at && Less(e.id, id))
  }

  predicate Precedes(a: Row, b: Row)
  {
    BeforePoint(a, b.createdAt, b.id)
  }

  lemma PrecedesIrreflexive(a: Row)
    ensures !Precedes(a, a)
  {
    LessIrreflexive(a.createdAt);
    LessIrreflexive(a.id);
  }

  lemma PrecedesTransitive(a: Row, b: Row, c: Row)
    requires Precedes(a, b) && Precedes(b, c)
    ensures Precedes(a, c)
  {
    if Less(a.createdAt, b.createdAt) && Less(b.createdAt, c.createdAt) {
      LessTransitive(a.createdAt, b.createdAt, c.createdAt);
    } else if a.createdAt == b.createdAt == c.createdAt {
      LessTransitive(a.id, b.id, c.id);
    }
  }

  lemma PrecedesTotal(a: Row, b: Row)
    requires a.id != b.id
    ensures Precedes(a, b) || Precedes(b, a)
  {
    LessTotal(a.createdAt, b.createdAt);
    LessTotal(a.id, b.id);
  }

  lemma PrecedesAsymmetric(a: Row, b: Row)
    requires Precedes(a, b)
    ensures !Precedes(b, a)
  {
    if Precedes(b, a) {
      PrecedesTransitive(a, b, a);
      PrecedesIrreflexive(a);
    }
  }
}
