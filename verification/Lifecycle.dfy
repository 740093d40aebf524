/** What one autonomy transaction may write, as a relation between the
    committed rows and the rows it adds. */
module Lifecycle {
  import opened Text
  import opened Events
  import opened Reads
  import opened Declarations

  predicate ScopeAllowed(d: Declaration, scope: Option<string>)
  {
    match d.scopes
    case None => scope.None?
    case Some(declared) => scope.Some? && scope.value in declared
  }

  predicate DeclaredTransition(d: Declaration, fromPosition: Position, toPosition: Position)
  {
    Edge(fromPosition, toPosition) == d.promotion || Edge(fromPosition, toPosition) == d.demotion
  }

  function TripleFor(d: Declaration, scope: Option<string>): Triple
  {
    Triple(d.task, d.version, scope)
  }

  /** The position after the last change, or the initial one when there is none. */
  function PositionAfter(d: Declaration, last: Option<Row>): Position
  {
    match last
    case None => d.initialPosition
    case Some(e) => e.toPosition
  }

  ghost function Fold(t: set<Row>, d: Declaration, scope: Option<string>): Position
  {
    PositionAfter(d, Latest(t, TripleFor(d, scope)))
  }

  function IdOf(e: Option<Row>): Option<string>
  {
    match e
    case None => None
    case Some(r) => Some(r.id)
  }

  /** The position revision in force at row e: the change of e's triple that
      was latest strictly before it. */
  ghost function RevisionAt(t: set<Row>, e: Row): Option<Row>
  {
    LatestBefore(t, TripleOf(e), e.createdAt, e.id)
  }

  /** The identity comparison `approve` makes in place of a value comparison. */
  ghost predicate Stale(t: set<Row>, p: Row)
  {
    IdOf(RevisionAt(t, p)) != IdOf(Latest(t, TripleOf(p)))
  }

  // ----- Motions -----

  predicate Of(e: Row, motionId: string, kind: EventKind)
  {
    e.motionId == motionId && e.event == kind
  }

  ghost function KindsOf(t: set<Row>, motionId: string): set<EventKind>
  {
    set e | e in t && e.motionId == motionId :: e.event
  }

  ghost function MotionRows(t: set<Row>, motionId: string): set<Row>
  {
    set e | e in t && e.motionId == motionId
  }

  /** p is a committed proposal nothing has been decided about. */
  ghost predicate Open(t: set<Row>, p: Row)
  {
    p in t && p.event == MotionProposed && KindsOf(t, p.motionId) == {MotionProposed}
  }

  /** e is the sibling event of kind `kind` that copies proposal p. */
  predicate Copies(e: Row, p: Row, kind: EventKind)
  {
    Of(e, p.motionId, kind) && SameIdentity(e, p)
  }

  // ----- Transactions -----

  datatype Action =
    | Propose(d: Declaration, p: Row)
    | Reject(p: Row, r: Row)
    | Approve(d: Declaration, p: Row, a: Row, c: Row)
    | Demote(d: Declaration, p: Row, a: Row, c: Row)

  function NewRows(act: Action): set<Row>
  {
    match act
    case Propose(_, p) => {p}
    case Reject(_, r) => {r}
    case Approve(_, _, a, c) => {a, c}
    case Demote(_, p, a, c) => {p, a, c}
  }

  ghost predicate Enabled(t: set<Row>, act: Action)
  {
    match act
    case Propose(d, p) =>
      && p.event == MotionProposed && TripleOf(p) == TripleFor(d, p.scope) && ScopeAllowed(d, p.scope)
      && p.fromPosition == Fold(t, d, p.scope) && DeclaredTransition(d, p.fromPosition, p.toPosition)
    case Reject(p, r) =>
      Open(t, p) && Copies(r, p, MotionRejected)
    case Approve(d, p, a, c) =>
      && Open(t, p) && d.task == p.task && d.version == p.declarationVersion
      && DeclaredTransition(d, p.fromPosition, p.toPosition) && !Stale(t, p)
      && Copies(a, p, MotionApproved) && Copies(c, p, PositionChanged)
    case Demote(d, p, a, c) =>
      && p.event == MotionProposed && TripleOf(p) == TripleFor(d, p.scope) && ScopeAllowed(d, p.scope)
      && p.fromPosition == Fold(t, d, p.scope) && Edge(p.fromPosition, p.toPosition) == d.demotion
      && Copies(a, p, MotionApproved) && Copies(c, p, PositionChanged)
  }

  /** H2: a (task, version) pair always names the same accepted declaration. */
  type Catalog = map<(string, int), Declaration>

  ghost predicate Accepted(cat: Catalog)
  {
    forall k :: k in cat ==> (cat[k].task, cat[k].version) == k && WellBuilt(cat[k]) && Sound(cat[k])
  }

  ghost predicate Declares(cat: Catalog, d: Declaration)
  {
    (d.task, d.version) in cat && cat[(d.task, d.version)] == d
  }

  ghost predicate InForce(cat: Catalog, act: Action)
  {
    !act.Reject? ==> Declares(cat, act.d)
  }

  /** One committed transaction. */
  ghost predicate Step(cat: Catalog, t: set<Row>, act: Action)
  {
    InForce(cat, act) && Enabled(t, act) && Admits(t, NewRows(act))
  }

  // ----- Runs -----

  ghost function After(t: set<Row>, acts: seq<Action>): set<Row>
    decreases |acts|
  {
    if acts == [] then t else After(t + NewRows(acts[0]), acts[1..])
  }

  /** Any interleaving of committed transactions, declaration versions
      switching freely between them; a failed transaction commits nothing. */
  ghost predicate Run(cat: Catalog, t: set<Row>, acts: seq<Action>)
    decreases |acts|
  {
    acts == [] || (Step(cat, t, acts[0]) && Run(cat, t + NewRows(acts[0]), acts[1..]))
  }

  /** H1: every transaction's rows sort after all rows committed before it. */
  ghost predicate SortsAfter(t: set<Row>, b: set<Row>)
  {
    forall x, y :: x in t && y in b ==> Precedes(x, y)
  }

  ghost predicate Orderly(t: set<Row>, acts: seq<Action>)
    decreases |acts|
  {
    acts == [] || (SortsAfter(t, NewRows(acts[0])) && Orderly(t + NewRows(acts[0]), acts[1..]))
  }

  /** Runs from the empty store. */
  ghost predicate History(cat: Catalog, acts: seq<Action>)
  {
    Accepted(cat) && Run(cat, {}, acts)
  }
}
