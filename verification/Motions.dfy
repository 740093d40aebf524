/** The derived view of one motion: a projection of its rows, never stored. */
module Motions {
  import opened Text
  import opened Events
  import opened Reads
  import opened Lifecycle
  import opened Histories

  datatype Motion = Motion(
    motionId: string, task: string, declarationVersion: int, scope: Option<string>,
    fromPosition: Position, toPosition: Position, status: MotionStatus,
    evidenceRef: string, evidenceSha256: string,
    proposedAt: string, proposedBy: string, proposedReason: string,
    approvedAt: Option<string>, approvedBy: Option<string>, approvedReason: Option<string>,
    rejectedAt: Option<string>, rejectedBy: Option<string>, rejectedReason: Option<string>,
    executedAt: Option<string>)

  /** The rows of one motion keyed by kind; a later row replaces an earlier one. */
  function ByEvent(rows: seq<Row>): (m: map<EventKind, Row>)
    ensures forall k :: k in m ==> m[k] in rows && m[k].event == k
    ensures forall e :: e in rows ==> e.event in m
    ensures forall i :: 0 <= i < |rows| && (forall j :: i < j < |rows| ==> rows[j].event != rows[i].event) ==>
              m[rows[i].event] == rows[i]
  {
    if rows == [] then map[]
    else
      var n := |rows| - 1;
      assert rows == rows[..n] + [rows[n]];
      ByEvent(rows[..n])[rows[n].event := rows[n]]
  }

  function Get(m: map<EventKind, Row>, k: EventKind): Option<Row>
  {
    if k in m then Some(m[k]) else None
  }

  function At(e: Option<Row>): Option<string>
  {
    if e.Some? then Some(e.value.createdAt) else None
  }

  function By(e: Option<Row>): Option<string>
  {
    if e.Some? then Some(e.value.actor) else None
  }

  function Why(e: Option<Row>): Option<string>
  {
    if e.Some? then Some(e.value.reason) else None
  }

  function ViewOf(p: Row, a: Option<Row>, r: Option<Row>, c: Option<Row>): Motion
  {
    var status := if c.Some? then Executed else if r.Some? then Rejected else if a.Some? then Approved else Proposed;
    Motion(p.motionId, p.task, p.declarationVersion, p.scope, p.fromPosition, p.toPosition, status,
           p.evidenceRef, p.evidenceSha256, p.createdAt, p.actor, p.reason,
           At(a), By(a), Why(a), At(r), By(r), Why(r), At(c))
  }

  /** None stands for a history with no proposal to project from. */
  function Project(rows: seq<Row>): Option<Motion>
  {
    var m := ByEvent(rows);
    if MotionProposed !in m then None
    else Some(ViewOf(m[MotionProposed], Get(m, MotionApproved), Get(m, MotionRejected), Get(m, PositionChanged)))
  }

  /** The only row of its kind a motion has, if any. */
  ghost function Find(t: set<Row>, motionId: string, kind: EventKind): Option<Row>
  {
    if e :| e in t && Of(e, motionId, kind) then Some(e) else None
  }

  ghost function View(t: set<Row>, motionId: string): Option<Motion>
  {
    match Find(t, motionId, MotionProposed)
    case None => None
    case Some(p) => Some(ViewOf(p, Find(t, motionId, MotionApproved), Find(t, motionId, MotionRejected),
                                Find(t, motionId, PositionChanged)))
  }

  lemma FindIs(t: set<Row>, e: Row)
    requires Table(t) && e in t
    ensures Find(t, e.motionId, e.event) == Some(e)
  {
    var x := Find(t, e.motionId, e.event).value;
    assert Clash(x, e);
  }

  /** On a table, the projection of a motion's rows does not depend on the
      order they are read in. */
  lemma ProjectIsView(t: set<Row>, motionId: string, rows: seq<Row>)
    requires Table(t) && forall e :: e in rows <==> e in MotionRows(t, motionId)
    ensures forall k :: Get(ByEvent(rows), k) == Find(t, motionId, k)
    ensures Project(rows) == View(t, motionId)
  {
    var m := ByEvent(rows);
    forall e | e in t && e.motionId == motionId ensures e.event in m {
      assert e in MotionRows(t, motionId);
    }
    forall k ensures Get(m, k) == Find(t, motionId, k) {
      if k in m {
        assert m[k] in MotionRows(t, motionId);
        FindIs(t, m[k]);
      }
    }
  }

  /** A view depends on the motion's own rows only. */
  lemma ViewOfRows(t: set<Row>, t': set<Row>, motionId: string)
    requires Table(t) && Table(t') && MotionRows(t, motionId) == MotionRows(t', motionId)
    ensures View(t, motionId) == View(t', motionId)
  {
    forall e ensures e in t && e.motionId == motionId <==> e in t' && e.motionId == motionId {
      assert e in MotionRows(t, motionId) <==> e in MotionRows(t', motionId);
    }
    forall k ensures Find(t, motionId, k) == Find(t', motionId, k) {
      if e :| e in t && Of(e, motionId, k) {
        FindIs(t, e);
        FindIs(t', e);
      }
    }
  }

  lemma FindHas(t: set<Row>, motionId: string, kind: EventKind)
    ensures Find(t, motionId, kind).Some? <==> Has(t, motionId, kind)
  {
  }

  /** In a reachable state a motion projects to proposed, rejected or executed,
      and which of them says exactly which rows it has. */
  lemma StatusMeans(cat: Catalog, t: set<Row>, motionId: string)
    requires Inv(cat, t)
    ensures View(t, motionId).None? <==> MotionRows(t, motionId) == {}
    ensures View(t, motionId).Some? ==>
              var s := View(t, motionId).value.status;
              && s in {Proposed, Rejected, Executed}
              && (s == Proposed <==> KindsOf(t, motionId) == {MotionProposed})
              && (s == Rejected <==> KindsOf(t, motionId) == {MotionProposed, MotionRejected})
              && (s == Executed <==> KindsOf(t, motionId) == {MotionProposed, MotionApproved, PositionChanged})
  {
    ShapeFromInv(cat, t, motionId);
    forall k ensures Find(t, motionId, k).Some? <==> k in KindsOf(t, motionId) {
      FindHas(t, motionId, k);
      KindIn(t, motionId, k);
    }
    forall e | e in MotionRows(t, motionId) ensures e.event in KindsOf(t, motionId) {
    }
    if Find(t, motionId, MotionProposed).Some? {
      assert Find(t, motionId, MotionProposed).value in MotionRows(t, motionId);
    }
  }

  /** What may become of a projected motion: a decided one stays as it is, an
      open one keeps everything its proposal says. */
  predicate Evolves(now: Motion, later: Motion)
  {
    && (now.status != Proposed ==> later == now)
    && (now.status == Proposed ==> later.status in {Proposed, Rejected, Executed})
    && now.(status := later.status, approvedAt := later.approvedAt, approvedBy := later.approvedBy,
            approvedReason := later.approvedReason, rejectedAt := later.rejectedAt, rejectedBy := later.rejectedBy,
            rejectedReason := later.rejectedReason, executedAt := later.executedAt) == later
  }

  /** Along every run a status moves only from proposed to executed or to
      rejected, and the whole projection never changes after that. */
  lemma StatusIsMonotone(cat: Catalog, past: seq<Action>, future: seq<Action>, motionId: string)
    requires History(cat, past) && Run(cat, After({}, past), future)
    requires View(After({}, past), motionId).Some?
    ensures View(After(After({}, past), future), motionId).Some?
    ensures Evolves(View(After({}, past), motionId).value, View(After(After({}, past), future), motionId).value)
  {
    var t := After({}, past);
    var t' := After(t, future);
    InvRun(cat, {}, past);
    InvRun(cat, t, future);
    AppendOnly(t, future);
    StatusMeans(cat, t, motionId);
    StatusMeans(cat, t', motionId);
    var p := Find(t, motionId, MotionProposed).value;
    FindIs(t, p);
    FindIs(t', p);
    if View(t, motionId).value.status != Proposed {
      assert KindsOf(t, motionId) != {MotionProposed};
      assert MotionProposed in KindsOf(t, motionId);
      var k :| k in KindsOf(t, motionId) && k != MotionProposed;
      var x :| x in t && x.motionId == motionId && x.event == k;
      assert x in MotionRows(t, motionId);
      DecisionsAreFinal(cat, t, future, motionId);
      ViewOfRows(t, t', motionId);
    }
  }

  /** An open proposal that has gone stale can only stay proposed or be rejected,
      whatever runs later and even if the position value cycles back. */
  lemma StaleEndsUnexecuted(cat: Catalog, past: seq<Action>, future: seq<Action>, p: Row)
    requires History(cat, past) && Run(cat, After({}, past), future)
    requires Open(After({}, past), p) && Stale(After({}, past), p)
    ensures View(After(After({}, past), future), p.motionId).Some?
    ensures View(After(After({}, past), future), p.motionId).value.status in {Proposed, Rejected}
  {
    var t := After({}, past);
    var t' := After(t, future);
    InvRun(cat, {}, past);
    InvRun(cat, t, future);
    AppendOnly(t, future);
    if c :| c in t && Of(c, p.motionId, PositionChanged) { OpenHasNoSiblings(t, p, c); }
    StaleNeverExecutes(cat, t, future, p);
    FindIs(t', p);
    StatusMeans(cat, t', p.motionId);
    KindIn(t', p.motionId, PositionChanged);
  }
}
