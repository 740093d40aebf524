/** What each lifecycle call answers, as a function of the committed rows, the
    declarations loaded and the evidence present: which check fails first, and
    what is written when none does. */
module Decisions {
  import opened Text
  import opened Events
  import opened Reads
  import opened Declarations
  import opened Lifecycle
  import opened Histories
  import opened Motions
  import opened Evidence
  import opened SqliteStore

  datatype ServiceError =
    | MissingReason | NoActor | NoDeclaration | InvalidScope | InvalidPosition | EmptyEvidence | InvalidStatus
    | Undeclared | VersionDrift | StaleProposal | NotDemotionSource
    | NotFound | CorruptHistory | TerminalMotion
    | CorruptMotions(ids: seq<string>)
    | EvidenceFailed(cause: EvidenceError)
    | StoreFailed(failure: StoreError)

  /** What a loader call yields: the declarations by task, or nothing when any
      file in the directory is rejected. */
  type Loaded = Option<map<string, Declaration>>

  function Lookup(loaded: Loaded, task: string): Option<Declaration>
  {
    if loaded.Some? && task in loaded.value then Some(loaded.value[task]) else None
  }

  /** What a load answers under H2: accepted declarations of the catalog, each
      under its own task name. */
  ghost predicate LoadedFrom(cat: Catalog, loaded: Loaded)
  {
    loaded.Some? ==> forall task :: task in loaded.value ==>
      var d := loaded.value[task];
      d.task == task && Declares(cat, d)
  }

  datatype Verdict = Refuse(error: ServiceError) | Repeat | Write

  // ----- Approve and reject -----

  ghost function ApproveVerdict(t: set<Row>, motionId: string, hash: Digest, files: Files, loaded: Loaded): Verdict
  {
    var rejected := Find(t, motionId, MotionRejected);
    var approved := Find(t, motionId, MotionApproved);
    var changed := Find(t, motionId, PositionChanged);
    match Find(t, motionId, MotionProposed)
    case None => Refuse(NotFound)
    case Some(p) =>
      if rejected.Some? then
        Refuse(if approved.Some? || changed.Some? then CorruptHistory else TerminalMotion)
      else if approved.Some? && changed.Some? then
        if SameIdentity(approved.value, p) && SameIdentity(changed.value, p) then Repeat else Refuse(CorruptHistory)
      else if approved.Some? || changed.Some? then Refuse(CorruptHistory)
      else FreshApproval(t, p, hash, files, loaded)
  }

  ghost function FreshApproval(t: set<Row>, p: Row, hash: Digest, files: Files, loaded: Loaded): Verdict
  {
    match Verify(hash, files, p.evidenceRef, p.evidenceSha256)
    case Failure(e) => Refuse(EvidenceFailed(e))
    case Success(_) =>
      match Lookup(loaded, p.task)
      case None => Refuse(NoDeclaration)
      case Some(d) =>
        if d.version != p.declarationVersion then Refuse(VersionDrift)
        else if !DeclaredTransition(d, p.fromPosition, p.toPosition) then Refuse(Undeclared)
        else if Stale(t, p) then Refuse(StaleProposal)
        else Write
  }

  ghost function RejectVerdict(t: set<Row>, motionId: string): Verdict
  {
    var rejected := Find(t, motionId, MotionRejected);
    var decided := Find(t, motionId, MotionApproved).Some? || Find(t, motionId, PositionChanged).Some?;
    match Find(t, motionId, MotionProposed)
    case None => Refuse(NotFound)
    case Some(p) =>
      if rejected.Some? then
        if decided then Refuse(CorruptHistory)
        else if SameIdentity(rejected.value, p) then Repeat
        else Refuse(CorruptHistory)
      else if decided then Refuse(TerminalMotion)
      else Write
  }

  // ----- Propose and demote -----

  ghost function TransitionVerdict(t: set<Row>, d: Declaration, scope: Option<string>, toPosition: Position): Verdict
  {
    if DeclaredTransition(d, Fold(t, d, scope), toPosition) then Write else Refuse(Undeclared)
  }

  /** The checks made before any evidence is written. */
  ghost function ProposePrecheck(t: set<Row>, loaded: Loaded, task: string, scope: Option<string>, toPosition: Position,
                                 source: Option<Bytes>): Verdict
  {
    match Lookup(loaded, task)
    case None => Refuse(NoDeclaration)
    case Some(d) =>
      if !ScopeAllowed(d, scope) then Refuse(InvalidScope)
      else if toPosition.OtherPosition? then Refuse(InvalidPosition)
      else if TransitionVerdict(t, d, scope, toPosition).Refuse? then TransitionVerdict(t, d, scope, toPosition)
      else if source.None? then Refuse(EvidenceFailed(NotRegular))
      else if source.value == [] then Refuse(EmptyEvidence)
      else Write
  }

  /** `first` and `second` are the declarations the call's two loads return. */
  ghost function DemoteVerdict(t: set<Row>, first: Loaded, second: Loaded, task: string, scope: Option<string>): Verdict
  {
    match Lookup(second, task)
    case None => Refuse(NoDeclaration)
    case Some(now) =>
      if !ScopeAllowed(now, scope) then Refuse(InvalidScope)
      else if Lookup(first, task).Some? && Fold(t, now, scope) != Lookup(first, task).value.demotion.fromPosition
      then Refuse(NotDemotionSource)
      else Write
  }

  // ----- The rows written -----

  datatype Stamp = Stamp(id: string, at: string)

  /** p with its own id and time, of the given kind, acted by `actor`. */
  function Sibling(p: Row, kind: EventKind, stamp: Stamp, actor: string, reason: string): (e: Row)
    ensures Copies(e, p, kind) && e.id == stamp.id && e.createdAt == stamp.at
  {
    p.(eventSchema := CURRENT_EVENT_SCHEMA, event := kind, id := stamp.id, createdAt := stamp.at, actor := actor,
       reason := reason)
  }

  function Siblings(p: Row, kinds: seq<EventKind>, draw: nat -> Stamp, actor: string, reason: string): (r: seq<Row>)
    ensures |r| == |kinds|
  {
    seq(|kinds|, i requires 0 <= i < |kinds| => Sibling(p, kinds[i], draw(i), actor, reason))
  }

  function NameOf(p: Position): string
  {
    match p
    case Manual => "manual"
    case Hitl => "hitl"
    case Hotl => "hotl"
    case Autonomous => "autonomous"
    case OtherPosition(text) => text
  }

  function ReasonOr(reason: Option<string>, fromPosition: Position, toPosition: Position): string
  {
    if reason.Some? && reason.value != "" then reason.value
    else "requested transition " + NameOf(fromPosition) + " to " + NameOf(toPosition)
  }

  function ProposalRow(d: Declaration, scope: Option<string>, fromPosition: Position, toPosition: Position,
                       evidence: (string, string), motionId: string, stamp: Stamp, actor: string,
                       reason: Option<string>): Row
  {
    AutonomyEvent(CURRENT_EVENT_SCHEMA, stamp.id, motionId, d.task, d.version, scope, MotionProposed,
                  fromPosition, toPosition, evidence.0, evidence.1, actor,
                  ReasonOr(reason, fromPosition, toPosition), stamp.at)
  }

  /** The row the three events of a demotion copy. */
  function DemotionTemplate(d: Declaration, scope: Option<string>, fromPosition: Position, evidence: (string, string),
                            motionId: string, actor: string, reason: string): Row
  {
    AutonomyEvent(CURRENT_EVENT_SCHEMA, "", motionId, d.task, d.version, scope, MotionProposed, fromPosition,
                  d.demotion.toPosition, evidence.0, evidence.1, actor, reason, "")
  }

  // ----- Each verdict is one legal transaction -----

  lemma OpenIff(t: set<Row>, p: Row)
    requires Table(t) && p in t && p.event == MotionProposed
    ensures Open(t, p) <==> forall k :: k != MotionProposed ==> Find(t, p.motionId, k) == None
  {
    forall k ensures Find(t, p.motionId, k).Some? <==> k in KindsOf(t, p.motionId) {
      FindHas(t, p.motionId, k);
      KindIn(t, p.motionId, k);
    }
    FindIs(t, p);
    if Open(t, p) {
      forall k | k != MotionProposed ensures Find(t, p.motionId, k) == None {
        assert k !in KindsOf(t, p.motionId);
      }
    }
  }

  lemma OnlyFourKinds(t: set<Row>, motionId: string, k: EventKind)
    requires Table(t) && Find(t, motionId, k).Some?
    ensures !k.OtherKind?
  {
    assert InVocabulary(Find(t, motionId, k).value);
  }

  lemma NothingDecided(t: set<Row>, p: Row)
    requires Table(t) && p in t && p.event == MotionProposed
    requires forall k :: k in {MotionApproved, MotionRejected, PositionChanged} ==> Find(t, p.motionId, k) == None
    ensures Open(t, p)
  {
    forall k | k != MotionProposed ensures Find(t, p.motionId, k) == None {
      if Find(t, p.motionId, k).Some? { OnlyFourKinds(t, p.motionId, k); }
    }
    OpenIff(t, p);
  }

  /** Rows that were appended without breaking a constraint were admitted. */
  lemma AppendedWereAdmitted(base: seq<Row>, rows: seq<Row>)
    requires Consistent(base + rows)
    ensures Admits(RowsOf(base), RowsOf(rows)) && RowsOf(base + rows) == RowsOf(base) + RowsOf(rows)
  {
    ConsistentIsTable(base + rows);
    RowsOfConcat(base, rows);
    forall i, j | 0 <= i < |base| && 0 <= j < |rows| ensures base[i] != rows[j] {
      assert base[i] == (base + rows)[i] && rows[j] == (base + rows)[|base| + j];
      assert !Clash((base + rows)[i], (base + rows)[|base| + j]);
    }
  }

  /** What has been checked when `approve` decides to write. */
  lemma WritingMeansEnabled(t: set<Row>, motionId: string, hash: Digest, files: Files, loaded: Loaded, p: Row)
    requires Table(t) && ApproveVerdict(t, motionId, hash, files, loaded).Write?
    requires Find(t, motionId, MotionProposed) == Some(p)
    ensures Verify(hash, files, p.evidenceRef, p.evidenceSha256).Success? && Lookup(loaded, p.task).Some?
    ensures forall a, c :: Copies(a, p, MotionApproved) && Copies(c, p, PositionChanged) && LoadedAs(loaded, p) ==>
              Enabled(t, Approve(Lookup(loaded, p.task).value, p, a, c))
  {
    NothingDecided(t, p);
  }

  /** The declaration loaded for p goes by its own task name. */
  predicate LoadedAs(loaded: Loaded, p: Row)
    requires Lookup(loaded, p.task).Some?
  {
    Lookup(loaded, p.task).value.task == p.task
  }

  lemma TwoSiblings(p: Row, draw: nat -> Stamp, actor: string, reason: string)
    ensures var rows := Siblings(p, [MotionApproved, PositionChanged], draw, actor, reason);
            && Copies(rows[0], p, MotionApproved) && Copies(rows[1], p, PositionChanged)
            && RowsOf(rows) == {rows[0], rows[1]}
  {
    var kinds := [MotionApproved, PositionChanged];
    var rows := Siblings(p, kinds, draw, actor, reason);
    assert rows[0] == Sibling(p, kinds[0], draw(0), actor, reason);
    assert rows[1] == Sibling(p, kinds[1], draw(1), actor, reason);
    assert rows == [rows[0], rows[1]];
  }

  /** When `approve` writes, it commits one enabled approval, and its evidence
      verified against the files of that very moment. */
  lemma ApproveIsStep(cat: Catalog, base: seq<Row>, motionId: string, hash: Digest, files: Files, loaded: Loaded,
                      draw: nat -> Stamp, actor: string, reason: string)
    requires LoadedFrom(cat, loaded) && Consistent(base)
    requires ApproveVerdict(RowsOf(base), motionId, hash, files, loaded).Write?
    ensures var p := Find(RowsOf(base), motionId, MotionProposed).value;
            var rows := Siblings(p, [MotionApproved, PositionChanged], draw, actor, reason);
            && Verify(hash, files, p.evidenceRef, p.evidenceSha256).Success?
            && Lookup(loaded, p.task).Some?
            && (Consistent(base + rows) ==>
                  var act := Approve(Lookup(loaded, p.task).value, p, rows[0], rows[1]);
                  Step(cat, RowsOf(base), act) && RowsOf(base + rows) == RowsOf(base) + NewRows(act))
  {
    var t := RowsOf(base);
    ConsistentIsTable(base);
    var p := Find(t, motionId, MotionProposed).value;
    WritingMeansEnabled(t, motionId, hash, files, loaded, p);
    TwoSiblings(p, draw, actor, reason);
    var rows := Siblings(p, [MotionApproved, PositionChanged], draw, actor, reason);
    if Consistent(base + rows) { AppendedWereAdmitted(base, rows); }
  }

  lemma RejectIsStep(cat: Catalog, base: seq<Row>, motionId: string, stamp: Stamp, actor: string, reason: string)
    requires Consistent(base) && RejectVerdict(RowsOf(base), motionId).Write?
    ensures var p := Find(RowsOf(base), motionId, MotionProposed).value;
            var row := Sibling(p, MotionRejected, stamp, actor, reason);
            Consistent(base + [row]) ==>
              Step(cat, RowsOf(base), Reject(p, row)) && RowsOf(base + [row]) == RowsOf(base) + {row}
  {
    ConsistentIsTable(base);
    var p := Find(RowsOf(base), motionId, MotionProposed).value;
    NothingDecided(RowsOf(base), p);
    var row := Sibling(p, MotionRejected, stamp, actor, reason);
    assert RowsOf([row]) == {row};
    if Consistent(base + [row]) { AppendedWereAdmitted(base, [row]); }
  }

  /** When `propose` writes, it commits one enabled proposal over the rows
      committed at its insert, whatever arrived since its first check. */
  lemma ProposeIsStep(cat: Catalog, base: seq<Row>, loaded: Loaded, task: string, scope: Option<string>,
                      toPosition: Position, evidence: (string, string), motionId: string, stamp: Stamp,
                      actor: string, reason: Option<string>)
    requires LoadedFrom(cat, loaded) && Lookup(loaded, task).Some? && ScopeAllowed(Lookup(loaded, task).value, scope)
    requires TransitionVerdict(RowsOf(base), Lookup(loaded, task).value, scope, toPosition).Write?
    ensures var d := Lookup(loaded, task).value;
            var row := ProposalRow(d, scope, Fold(RowsOf(base), d, scope), toPosition, evidence, motionId, stamp,
                                   actor, reason);
            Consistent(base + [row]) ==>
              Step(cat, RowsOf(base), Propose(d, row)) && RowsOf(base + [row]) == RowsOf(base) + {row}
  {
    var d := Lookup(loaded, task).value;
    var row := ProposalRow(d, scope, Fold(RowsOf(base), d, scope), toPosition, evidence, motionId, stamp, actor,
                           reason);
    assert RowsOf([row]) == {row};
    if Consistent(base + [row]) { AppendedWereAdmitted(base, [row]); }
  }

  const DEMOTION_KINDS := [MotionProposed, MotionApproved, PositionChanged]

  /** When `demote` writes, and both its loads answered the same declaration
      (H2), it commits one enabled demotion. */
  lemma DemoteIsStep(cat: Catalog, base: seq<Row>, loaded: Loaded, task: string, scope: Option<string>,
                     template: Row, draw: nat -> Stamp, actor: string, reason: string)
    requires LoadedFrom(cat, loaded) && Lookup(loaded, task).Some?
    requires DemoteVerdict(RowsOf(base), loaded, loaded, task, scope).Write?
    requires var d := Lookup(loaded, task).value;
             TripleOf(template) == TripleFor(d, scope) && Edge(template.fromPosition, template.toPosition) == d.demotion
    ensures var rows := Siblings(template, DEMOTION_KINDS, draw, actor, reason);
            var act := Demote(Lookup(loaded, task).value, rows[0], rows[1], rows[2]);
            Consistent(base + rows) ==>
              Step(cat, RowsOf(base), act) && RowsOf(base + rows) == RowsOf(base) + NewRows(act)
  {
    var rows := Siblings(template, DEMOTION_KINDS, draw, actor, reason);
    assert rows[0] == Sibling(template, DEMOTION_KINDS[0], draw(0), actor, reason);
    assert rows[1] == Sibling(template, DEMOTION_KINDS[1], draw(1), actor, reason);
    assert rows[2] == Sibling(template, DEMOTION_KINDS[2], draw(2), actor, reason);
    assert rows == [rows[0], rows[1], rows[2]];
    assert RowsOf(rows) == {rows[0], rows[1], rows[2]};
    if Consistent(base + rows) { AppendedWereAdmitted(base, rows); }
  }

  /** In reachable states, approving and rejecting never report corruption, are
      idempotent on a motion decided their way and terminal on one decided the
      other way, and only a proposed motion can be written to. */
  lemma VerdictByStatus(cat: Catalog, t: set<Row>, motionId: string, hash: Digest, files: Files, loaded: Loaded)
    requires Inv(cat, t)
    ensures var a, r := ApproveVerdict(t, motionId, hash, files, loaded), RejectVerdict(t, motionId);
            match View(t, motionId)
            case None => a == Refuse(NotFound) && r == Refuse(NotFound)
            case Some(m) =>
              match m.status
              case Executed => a == Repeat && r == Refuse(TerminalMotion)
              case Rejected => a == Refuse(TerminalMotion) && r == Repeat
              case _ => r == Write && !a.Repeat? &&
                        a !in {Refuse(CorruptHistory), Refuse(TerminalMotion), Refuse(NotFound)}
  {
    StatusMeans(cat, t, motionId);
    forall k ensures Find(t, motionId, k).Some? <==> k in KindsOf(t, motionId) {
      FindHas(t, motionId, k);
      KindIn(t, motionId, k);
    }
    if View(t, motionId).Some? {
      var p := Find(t, motionId, MotionProposed).value;
      forall k | Find(t, motionId, k).Some? ensures SameIdentity(Find(t, motionId, k).value, p) {
        OneIdentity(cat, t, Find(t, motionId, k).value, p);
      }
    }
  }

  /** Once a motion is decided, in every later state of every run the call that
      decided it answers `Repeat`, with the projection of that moment, and the
      opposite call is terminal. */
  lemma DecisionsRepeat(cat: Catalog, past: seq<Action>, future: seq<Action>, motionId: string, hash: Digest,
                        files: Files, loaded: Loaded)
    requires History(cat, past) && Run(cat, After({}, past), future)
    requires View(After({}, past), motionId).Some? && View(After({}, past), motionId).value.status != Proposed
    ensures var later := After(After({}, past), future);
            var a, r := ApproveVerdict(later, motionId, hash, files, loaded), RejectVerdict(later, motionId);
            && View(later, motionId) == View(After({}, past), motionId)
            && (View(later, motionId).value.status == Executed ==> a == Repeat && r == Refuse(TerminalMotion))
            && (View(later, motionId).value.status != Executed ==> a == Refuse(TerminalMotion) && r == Repeat)
  {
    var t := After({}, past);
    InvRun(cat, {}, past);
    InvRun(cat, t, future);
    StatusMeans(cat, t, motionId);
    StatusIsMonotone(cat, past, future, motionId);
    VerdictByStatus(cat, After(t, future), motionId, hash, files, loaded);
  }
}
