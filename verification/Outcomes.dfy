/** What each successful call returns: the motion before it, with exactly the
    fields of the rows the call wrote filled in. */
module Outcomes {
  import opened Text
  import opened Events
  import opened Reads
  import opened Declarations
  import opened Lifecycle
  import opened Motions
  import opened Evidence
  import opened SqliteStore
  import opened Decisions

  /** Which committed row every field of a motion reports. */
  lemma ViewReports(t: set<Row>, motionId: string, e: Row)
    requires Table(t) && View(t, motionId).Some? && e in t && e.motionId == motionId
    ensures var m := View(t, motionId).value;
            match e.event
            case MotionProposed =>
              && m.motionId == motionId && TripleOf(e) == Triple(m.task, m.declarationVersion, m.scope)
              && m.fromPosition == e.fromPosition && m.toPosition == e.toPosition
              && m.evidenceRef == e.evidenceRef && m.evidenceSha256 == e.evidenceSha256
              && m.proposedAt == e.createdAt && m.proposedBy == e.actor && m.proposedReason == e.reason
            case MotionApproved =>
              m.approvedAt == Some(e.createdAt) && m.approvedBy == Some(e.actor) && m.approvedReason == Some(e.reason)
            case MotionRejected =>
              m.rejectedAt == Some(e.createdAt) && m.rejectedBy == Some(e.actor) && m.rejectedReason == Some(e.reason)
            case PositionChanged => m.status == Executed && m.executedAt == Some(e.createdAt)
            case OtherKind(_) => false
  {
    FindIs(t, e);
    FindIs(t, Find(t, motionId, MotionProposed).value);
    assert InVocabulary(e);
  }

  lemma FindAfter(base: seq<Row>, rows: seq<Row>, motionId: string, k: EventKind)
    requires Consistent(base + rows)
    ensures Find(RowsOf(base), motionId, k).Some? ==>
              Find(RowsOf(base + rows), motionId, k) == Find(RowsOf(base), motionId, k)
    ensures Find(RowsOf(base), motionId, k).None? && (forall e :: e in rows ==> !Of(e, motionId, k)) ==>
              Find(RowsOf(base + rows), motionId, k) == None
    ensures forall e :: e in rows && Of(e, motionId, k) ==> Find(RowsOf(base + rows), motionId, k) == Some(e)
  {
    ConsistentIsTable(base + rows);
    var t := RowsOf(base + rows);
    if Find(RowsOf(base), motionId, k).Some? { FindIs(t, Find(RowsOf(base), motionId, k).value); }
    forall e | e in rows && Of(e, motionId, k) ensures Find(t, motionId, k) == Some(e) { FindIs(t, e); }
  }

  /** A fresh approval returns the proposed motion, executed, with the two new
      rows' times and the caller's name and reason. */
  lemma ApproveReturns(base: seq<Row>, motionId: string, hash: Digest, files: Files, loaded: Loaded,
                       draw: nat -> Stamp, actor: string, reason: string)
    requires Consistent(base) && ApproveVerdict(RowsOf(base), motionId, hash, files, loaded).Write?
    requires Consistent(base + Siblings(Find(RowsOf(base), motionId, MotionProposed).value,
                                        [MotionApproved, PositionChanged], draw, actor, reason))
    ensures var p := Find(RowsOf(base), motionId, MotionProposed).value;
            var rows := Siblings(p, [MotionApproved, PositionChanged], draw, actor, reason);
            View(RowsOf(base + rows), motionId) ==
              Some(View(RowsOf(base), motionId).value.(
                     status := Executed, approvedAt := Some(draw(0).at), approvedBy := Some(actor),
                     approvedReason := Some(reason), executedAt := Some(draw(1).at)))
  {
    var p := Find(RowsOf(base), motionId, MotionProposed).value;
    var kinds := [MotionApproved, PositionChanged];
    var rows := Siblings(p, kinds, draw, actor, reason);
    assert rows[0] == Sibling(p, kinds[0], draw(0), actor, reason) && rows[0] in rows;
    assert rows[1] == Sibling(p, kinds[1], draw(1), actor, reason) && rows[1] in rows;
    assert rows == [rows[0], rows[1]];
    var t := RowsOf(base + rows);
    assert Find(t, motionId, MotionProposed) == Some(p) by { FindAfter(base, rows, motionId, MotionProposed); }
    assert Find(t, motionId, MotionApproved) == Some(rows[0]) by { FindAfter(base, rows, motionId, MotionApproved); }
    assert Find(t, motionId, MotionRejected) == None by { FindAfter(base, rows, motionId, MotionRejected); }
    assert Find(t, motionId, PositionChanged) == Some(rows[1]) by { FindAfter(base, rows, motionId, PositionChanged); }
  }

  /** A fresh rejection returns the proposed motion, rejected, with the new row's
      time and the caller's name and reason. */
  lemma RejectReturns(base: seq<Row>, motionId: string, stamp: Stamp, actor: string, reason: string, row: Row)
    requires Consistent(base) && RejectVerdict(RowsOf(base), motionId).Write?
    requires row == Sibling(Find(RowsOf(base), motionId, MotionProposed).value, MotionRejected, stamp, actor, reason)
    requires Consistent(base + [row])
    ensures View(RowsOf(base + [row]), motionId) ==
              Some(View(RowsOf(base), motionId).value.(
                     status := Rejected, rejectedAt := Some(stamp.at), rejectedBy := Some(actor),
                     rejectedReason := Some(reason)))
  {
    assert row in [row];
    FindAfter(base, [row], motionId, MotionProposed);
    FindAfter(base, [row], motionId, MotionApproved);
    FindAfter(base, [row], motionId, MotionRejected);
    FindAfter(base, [row], motionId, PositionChanged);
  }

  /** A new proposal returns an open motion with the position folded under the
      lock, the stored artifact and the caller's own data. */
  lemma ProposeReturns(base: seq<Row>, d: Declaration, scope: Option<string>, fromPosition: Position,
                       toPosition: Position, evidence: (string, string), motionId: string, stamp: Stamp,
                       actor: string, reason: Option<string>, row: Row)
    requires MotionRows(RowsOf(base), motionId) == {}
    requires row == ProposalRow(d, scope, fromPosition, toPosition, evidence, motionId, stamp, actor, reason)
    requires Consistent(base + [row])
    ensures View(RowsOf(base + [row]), motionId) ==
              Some(Motion(motionId, d.task, d.version, scope, fromPosition, toPosition, Proposed,
                          evidence.0, evidence.1, stamp.at, actor, ReasonOr(reason, fromPosition, toPosition),
                          None, None, None, None, None, None, None))
  {
    assert row in [row];
    NothingFound(RowsOf(base), motionId);
    FindAfter(base, [row], motionId, MotionProposed);
    FindAfter(base, [row], motionId, MotionApproved);
    FindAfter(base, [row], motionId, MotionRejected);
    FindAfter(base, [row], motionId, PositionChanged);
  }

  lemma NothingFound(t: set<Row>, motionId: string)
    requires MotionRows(t, motionId) == {}
    ensures forall k :: Find(t, motionId, k) == None
  {
    forall e | e in t ensures e.motionId != motionId {
      assert e !in MotionRows(t, motionId);
    }
  }

  /** A demotion returns an executed motion along the declared demotion edge,
      with the three rows' times and the caller's name and reason throughout. */
  lemma DemoteReturns(base: seq<Row>, d: Declaration, scope: Option<string>, evidence: (string, string),
                      motionId: string, draw: nat -> Stamp, actor: string, reason: string, template: Row)
    requires MotionRows(RowsOf(base), motionId) == {}
    requires template == DemotionTemplate(d, scope, d.demotion.fromPosition, evidence, motionId, actor, reason)
    requires Consistent(base + Siblings(template, DEMOTION_KINDS, draw, actor, reason))
    ensures View(RowsOf(base + Siblings(template, DEMOTION_KINDS, draw, actor, reason)), motionId) ==
              Some(Motion(motionId, d.task, d.version, scope, d.demotion.fromPosition, d.demotion.toPosition,
                          Executed, evidence.0, evidence.1, draw(0).at, actor, reason, Some(draw(1).at),
                          Some(actor), Some(reason), None, None, None, Some(draw(2).at)))
  {
    var rows := Siblings(template, DEMOTION_KINDS, draw, actor, reason);
    assert rows[0] == Sibling(template, DEMOTION_KINDS[0], draw(0), actor, reason) && rows[0] in rows;
    assert rows[1] == Sibling(template, DEMOTION_KINDS[1], draw(1), actor, reason) && rows[1] in rows;
    assert rows[2] == Sibling(template, DEMOTION_KINDS[2], draw(2), actor, reason) && rows[2] in rows;
    assert rows == [rows[0], rows[1], rows[2]];
    NothingFound(RowsOf(base), motionId);
    var t := RowsOf(base + rows);
    assert Find(t, motionId, MotionProposed) == Some(rows[0]) by { FindAfter(base, rows, motionId, MotionProposed); }
    assert Find(t, motionId, MotionApproved) == Some(rows[1]) by { FindAfter(base, rows, motionId, MotionApproved); }
    assert Find(t, motionId, MotionRejected) == None by { FindAfter(base, rows, motionId, MotionRejected); }
    assert Find(t, motionId, PositionChanged) == Some(rows[2]) by { FindAfter(base, rows, motionId, PositionChanged); }
  }
}
