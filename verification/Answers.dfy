/** When each call gives each answer, on the rows and declarations it reads and
    on any store, reachable or not. */
module Answers {
  import opened Text
  import opened Events
  import opened Reads
  import opened Declarations
  import opened Lifecycle
  import opened Histories
  import opened Motions
  import opened Evidence
  import opened SqliteStore
  import opened Decisions

  // ----- What a motion shows -----

  lemma FindNone(t: set<Row>, motionId: string, kind: EventKind)
    ensures Find(t, motionId, kind) == None <==> forall e :: e in t ==> !(e.motionId == motionId && e.event == kind)
  {
  }

  /** The status of a motion of any table, and which fields stay empty. */
  lemma StatusOf(t: set<Row>, motionId: string)
    requires Table(t) && View(t, motionId).Some?
    ensures var m := View(t, motionId).value;
            var changed := exists e :: e in t && e.motionId == motionId && e.event == PositionChanged;
            var rejected := exists e :: e in t && e.motionId == motionId && e.event == MotionRejected;
            var approved := exists e :: e in t && e.motionId == motionId && e.event == MotionApproved;
            && (m.status == Executed <==> changed)
            && (m.status == Rejected <==> !changed && rejected)
            && (m.status == Approved <==> !changed && !rejected && approved)
            && (m.status == Proposed <==> !changed && !rejected && !approved)
            && (m.executedAt.Some? <==> changed)
            && (m.rejectedAt.Some? <==> rejected) && (m.rejectedBy.Some? <==> rejected)
            && (m.rejectedReason.Some? <==> rejected)
            && (m.approvedAt.Some? <==> approved) && (m.approvedBy.Some? <==> approved)
            && (m.approvedReason.Some? <==> approved)
  {
    FindNone(t, motionId, PositionChanged);
    FindNone(t, motionId, MotionRejected);
    FindNone(t, motionId, MotionApproved);
  }

  // ----- Approve and reject -----

  ghost predicate Absent(t: set<Row>, motionId: string, kind: EventKind)
  {
    forall e :: e in t ==> !(e.motionId == motionId && e.event == kind)
  }

  /** Which rows a motion has decides whether it can be approved at all: nothing to
      approve, rejected, corrupt, already executed, or open. */
  lemma ApproveByRows(t: set<Row>, motionId: string, hash: Digest, files: Files, loaded: Loaded)
    requires Table(t)
    ensures var a := ApproveVerdict(t, motionId, hash, files, loaded);
            var proposed := !Absent(t, motionId, MotionProposed);
            var rejected := !Absent(t, motionId, MotionRejected);
            var approved := !Absent(t, motionId, MotionApproved);
            var changed := !Absent(t, motionId, PositionChanged);
            && (a == Refuse(NotFound) <==> !proposed)
            && (a == Refuse(TerminalMotion) <==> proposed && rejected && !approved && !changed)
            && (a == Repeat <==> proposed && !rejected && approved && changed && OneIdentityThroughout(t, motionId))
            && (a == Refuse(CorruptHistory) <==>
                  && proposed && (approved || changed)
                  && (rejected || !approved || !changed || !OneIdentityThroughout(t, motionId)))
  {
    FindNone(t, motionId, MotionProposed);
    FindNone(t, motionId, MotionRejected);
    FindNone(t, motionId, MotionApproved);
    FindNone(t, motionId, PositionChanged);
    IdentityThroughout(t, motionId);
  }

  /** The motion's approval and change agree with its proposal on all seven fields. */
  ghost predicate OneIdentityThroughout(t: set<Row>, motionId: string)
  {
    forall p, e | p in t && e in t && p.motionId == e.motionId == motionId && p.event == MotionProposed &&
                  e.event in {MotionApproved, PositionChanged} :: SevenAgree(e, p)
  }

  predicate SevenAgree(e: Row, p: Row)
  {
    && e.task == p.task && e.declarationVersion == p.declarationVersion && e.scope == p.scope
    && e.fromPosition == p.fromPosition && e.toPosition == p.toPosition
    && e.evidenceRef == p.evidenceRef && e.evidenceSha256 == p.evidenceSha256
  }

  lemma IdentityThroughout(t: set<Row>, motionId: string)
    requires Table(t)
    ensures var p, a, c := Find(t, motionId, MotionProposed), Find(t, motionId, MotionApproved),
                           Find(t, motionId, PositionChanged);
            p.Some? && a.Some? && c.Some? ==>
              (OneIdentityThroughout(t, motionId) <==> SameIdentity(a.value, p.value) && SameIdentity(c.value, p.value))
  {
    forall e | e in t && e.motionId == motionId ensures Find(t, motionId, e.event) == Some(e) { FindIs(t, e); }
  }

  /** An open proposal is approved if and only if its evidence verifies, the loaded
      declaration has its version and one of its edges, and no change of its task,
      version and scope sorts after it; else the first of these to fail is named. */
  lemma ApproveOpen(t: set<Row>, p: Row, hash: Digest, files: Files, loaded: Loaded)
    requires Table(t) && p in t && p.event == MotionProposed
    requires Absent(t, p.motionId, MotionRejected) && Absent(t, p.motionId, MotionApproved)
    requires Absent(t, p.motionId, PositionChanged)
    ensures var a := ApproveVerdict(t, p.motionId, hash, files, loaded);
            var verified := Verify(hash, files, p.evidenceRef, p.evidenceSha256);
            var declared := loaded.Some? && p.task in loaded.value;
            if verified.Failure? then a == Refuse(EvidenceFailed(verified.error))
            else if !declared then a == Refuse(NoDeclaration)
            else
              var d := loaded.value[p.task];
              if d.version != p.declarationVersion then a == Refuse(VersionDrift)
              else if !OnEdge(d, p.fromPosition, p.toPosition) then a == Refuse(Undeclared)
              else if ChangedAfter(t, p) then a == Refuse(StaleProposal)
              else a == Write
  {
    FindNone(t, p.motionId, MotionRejected);
    FindNone(t, p.motionId, MotionApproved);
    FindNone(t, p.motionId, PositionChanged);
    FindIs(t, p);
    StaleExactly(t, p);
  }

  predicate OnEdge(d: Declaration, fromPosition: Position, toPosition: Position)
  {
    || (fromPosition == d.promotion.fromPosition && toPosition == d.promotion.toPosition)
    || (fromPosition == d.demotion.fromPosition && toPosition == d.demotion.toPosition)
  }

  ghost predicate ChangedAfter(t: set<Row>, p: Row)
  {
    exists c :: c in t && c.event == PositionChanged && c.task == p.task &&
                c.declarationVersion == p.declarationVersion && c.scope == p.scope &&
                (Less(p.createdAt, c.createdAt) || (p.createdAt == c.createdAt && Less(p.id, c.id)))
  }

  lemma RejectByRows(t: set<Row>, motionId: string)
    requires Table(t)
    ensures var r := RejectVerdict(t, motionId);
            var proposed := !Absent(t, motionId, MotionProposed);
            var rejected := !Absent(t, motionId, MotionRejected);
            var decided := !Absent(t, motionId, MotionApproved) || !Absent(t, motionId, PositionChanged);
            && (r == Refuse(NotFound) <==> !proposed)
            && (r == Refuse(TerminalMotion) <==> proposed && decided && !rejected)
            && (r == Repeat <==> proposed && rejected && !decided && RejectionAgrees(t, motionId))
            && (r == Refuse(CorruptHistory) <==> proposed && rejected && (decided || !RejectionAgrees(t, motionId)))
            && (r == Write <==> proposed && !rejected && !decided)
  {
    FindNone(t, motionId, MotionProposed);
    FindNone(t, motionId, MotionRejected);
    FindNone(t, motionId, MotionApproved);
    FindNone(t, motionId, PositionChanged);
    forall e | e in t && e.motionId == motionId ensures Find(t, motionId, e.event) == Some(e) { FindIs(t, e); }
  }

  ghost predicate RejectionAgrees(t: set<Row>, motionId: string)
  {
    forall p, e | p in t && e in t && p.motionId == e.motionId == motionId && p.event == MotionProposed &&
                  e.event == MotionRejected :: SevenAgree(e, p)
  }

  // ----- Propose and demote -----

  /** The declaration lists this scope: none at all means only the null scope. */
  predicate ListsScope(d: Declaration, scope: Option<string>)
  {
    && (d.scopes.None? ==> scope.None?)
    && (d.scopes.Some? ==> scope.Some? && scope.value in d.scopes.value)
  }

  /** The position is where the latest change of the scope went, or the initial one
      where there is none. */
  lemma FoldFields(t: set<Row>, d: Declaration, scope: Option<string>)
    requires Table(t)
    ensures (forall c | c in t && c.event == PositionChanged ::
               !(c.task == d.task && c.declarationVersion == d.version && c.scope == scope)) ==>
              Fold(t, d, scope) == d.initialPosition
    ensures forall c | c in t && c.event == PositionChanged && c.task == d.task && c.declarationVersion == d.version &&
                       c.scope == scope && !ChangedAfter(t, c) :: Fold(t, d, scope) == c.toPosition
  {
    var k := Triple(d.task, d.version, scope);
    LatestIsGreatest(t, k);
    forall c | c in t && c.event == PositionChanged && c.task == d.task && c.declarationVersion == d.version &&
               c.scope == scope && !ChangedAfter(t, c)
      ensures Latest(t, k) == Some(c)
    {
      forall x | x in t && x.event == PositionChanged && x != c && x.task == d.task &&
                 x.declarationVersion == d.version && x.scope == scope
        ensures Precedes(x, c)
      {
        assert !Clash(x, c);
        PrecedesTotal(x, c);
      }
      LatestFields(t, d.task, d.version, scope, c);
    }
  }

  /** What the advisory checks of `propose` answer: the first that fails, in order. */
  lemma ProposeChecks(t: set<Row>, loaded: Loaded, task: string, scope: Option<string>, toPosition: Position,
                      source: Option<Bytes>)
    ensures var v := ProposePrecheck(t, loaded, task, scope, toPosition, source);
            if !(loaded.Some? && task in loaded.value) then v == Refuse(NoDeclaration)
            else
              var d := loaded.value[task];
              if !ListsScope(d, scope) then v == Refuse(InvalidScope)
              else if toPosition !in {Manual, Hitl, Hotl, Autonomous} then v == Refuse(InvalidPosition)
              else if !OnEdge(d, Fold(t, d, scope), toPosition) then v == Refuse(Undeclared)
              else if source == None then v == Refuse(EvidenceFailed(NotRegular))
              else if source == Some([]) then v == Refuse(EmptyEvidence)
              else v == Write
  {
  }

  /** When the advisory checks passed over t and the locked one over base, what is
      written is one legal proposal, in a scope the declaration lists. */
  lemma CheckedProposalIsStep(cat: Catalog, t: set<Row>, base: seq<Row>, loaded: Loaded, task: string,
                              scope: Option<string>, toPosition: Position, source: Option<Bytes>,
                              evidence: (string, string), motionId: string, stamp: Stamp, actor: string,
                              reason: Option<string>)
    requires LoadedFrom(cat, loaded)
    requires ProposePrecheck(t, loaded, task, scope, toPosition, source) == Write
    requires TransitionVerdict(RowsOf(base), Lookup(loaded, task).value, scope, toPosition) == Write
    ensures var d := loaded.value[task];
            var row := ProposalRow(d, scope, Fold(RowsOf(base), d, scope), toPosition, evidence, motionId, stamp, actor,
                                   reason);
            && ListsScope(d, scope)
            && (Consistent(base + [row]) ==>
                  Step(cat, RowsOf(base), Propose(d, row)) && RowsOf(base + [row]) == RowsOf(base) + {row})
  {
    ProposeIsStep(cat, base, loaded, task, scope, toPosition, evidence, motionId, stamp, actor, reason);
  }

  /** What `demote` answers under the lock, `now` being what its second load gives. */
  lemma DemoteChecks(t: set<Row>, first: Loaded, second: Loaded, task: string, scope: Option<string>)
    requires first.Some? && task in first.value
    ensures var v := DemoteVerdict(t, first, second, task, scope);
            if !(second.Some? && task in second.value) then v == Refuse(NoDeclaration)
            else
              var now := second.value[task];
              if !ListsScope(now, scope) then v == Refuse(InvalidScope)
              else if Fold(t, now, scope) != first.value[task].demotion.fromPosition then v == Refuse(NotDemotionSource)
              else v == Write
  {
  }

  // ----- The rows written -----

  const SCHEMA := "paa-autonomy-event/0.1.0-draft"

  /** e is a new row of motion p: the caller's name and reason, its own id and time,
      and what the proposal says. */
  predicate Records(e: Row, p: Row, kind: EventKind, stamp: Stamp, actor: string, reason: string)
  {
    && e.eventSchema == SCHEMA && e.event == kind && e.id == stamp.id && e.createdAt == stamp.at
    && e.actor == actor && e.reason == reason && e.motionId == p.motionId && SevenAgree(e, p)
  }

  /** after is base followed by one such row of p for each kind. */
  ghost predicate Wrote(base: seq<Row>, after: seq<Row>, p: Row, kinds: seq<EventKind>, draw: nat -> Stamp,
                        actor: string, reason: string)
  {
    && |after| == |base| + |kinds| && after[..|base|] == base
    && forall i :: 0 <= i < |kinds| ==> Records(after[|base| + i], p, kinds[i], draw(i), actor, reason)
  }

  lemma SiblingsWrote(base: seq<Row>, p: Row, kinds: seq<EventKind>, draw: nat -> Stamp, actor: string, reason: string)
    ensures Wrote(base, base + Siblings(p, kinds, draw, actor, reason), p, kinds, draw, actor, reason)
  {
    SiblingsRecord(p, kinds, draw, actor, reason);
  }

  /** The evidence fields of e name data, and the directory holds it there. */
  predicate Attests(e: Row, hash: Digest, files: Files, data: Bytes)
  {
    && e.evidenceSha256 == hash(data) && e.evidenceRef == "evidence/paa/" + hash(data) + "/evidence.json"
    && hash(data) in files && files[hash(data)] == data
  }

  function PositionText(p: Position): string
  {
    if p == Manual then "manual" else if p == Hitl then "hitl" else if p == Hotl then "hotl"
    else if p == Autonomous then "autonomous" else p.text
  }

  /** e records a request of this declaration, scope and target, from `fromPosition`,
      with the caller's reason or one that names the transition. */
  predicate RecordsProposal(e: Row, d: Declaration, scope: Option<string>, fromPosition: Position, toPosition: Position,
                            motionId: string, stamp: Stamp, actor: string, reason: Option<string>)
  {
    && e.eventSchema == SCHEMA && e.event == MotionProposed && e.id == stamp.id && e.createdAt == stamp.at
    && e.motionId == motionId && e.task == d.task && e.declarationVersion == d.version && e.scope == scope
    && e.fromPosition == fromPosition && e.toPosition == toPosition && e.actor == actor
    && (reason != None && reason != Some("") ==> Some(e.reason) == reason)
    && (reason == None || reason == Some("") ==>
          e.reason == "requested transition " + PositionText(fromPosition) + " to " + PositionText(toPosition))
  }

  lemma ProposalRecords(d: Declaration, scope: Option<string>, fromPosition: Position, toPosition: Position,
                        evidence: (string, string), motionId: string, stamp: Stamp, actor: string,
                        reason: Option<string>)
    ensures var row := ProposalRow(d, scope, fromPosition, toPosition, evidence, motionId, stamp, actor, reason);
            && RecordsProposal(row, d, scope, fromPosition, toPosition, motionId, stamp, actor, reason)
            && row.evidenceRef == evidence.0 && row.evidenceSha256 == evidence.1
  {
  }

  /** e is one of the three rows of a demotion of d along its demotion edge. */
  predicate RecordsDemotion(e: Row, d: Declaration, scope: Option<string>, motionId: string, kind: EventKind,
                            stamp: Stamp, actor: string, reason: string)
  {
    && e.eventSchema == SCHEMA && e.event == kind && e.id == stamp.id && e.createdAt == stamp.at
    && e.motionId == motionId && e.task == d.task && e.declarationVersion == d.version && e.scope == scope
    && e.fromPosition == d.demotion.fromPosition && e.toPosition == d.demotion.toPosition
    && e.actor == actor && e.reason == reason
  }

  lemma DemotionRecords(base: seq<Row>, d: Declaration, scope: Option<string>, evidence: (string, string),
                        motionId: string, draw: nat -> Stamp, actor: string, reason: string)
    ensures var template := DemotionTemplate(d, scope, d.demotion.fromPosition, evidence, motionId, actor, reason);
            var rows := Siblings(template, DEMOTION_KINDS, draw, actor, reason);
            && |rows| == 3
            && forall i :: 0 <= i < 3 ==>
                 && RecordsDemotion(rows[i], d, scope, motionId, [MotionProposed, MotionApproved, PositionChanged][i],
                                    draw(i), actor, reason)
                 && rows[i].evidenceRef == evidence.0 && rows[i].evidenceSha256 == evidence.1
  {
  }

  lemma SiblingRecords(p: Row, kind: EventKind, stamp: Stamp, actor: string, reason: string)
    ensures Records(Sibling(p, kind, stamp, actor, reason), p, kind, stamp, actor, reason)
  {
  }

  lemma SiblingsRecord(p: Row, kinds: seq<EventKind>, draw: nat -> Stamp, actor: string, reason: string)
    ensures var rows := Siblings(p, kinds, draw, actor, reason);
            |rows| == |kinds| && forall i :: 0 <= i < |kinds| ==> Records(rows[i], p, kinds[i], draw(i), actor, reason)
  {
  }
}
