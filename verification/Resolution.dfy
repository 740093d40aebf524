/** The authorization snapshot a governed effect reads, and where it comes from. */
module Resolution {
  import opened Text
  import opened Events
  import opened Reads
  import opened Declarations
  import opened Lifecycle
  import opened Histories
  import opened Motions

  datatype ResolvedPosition = ResolvedPosition(
    task: string, declarationVersion: int, deployment: string, initialPosition: Position,
    scope: Option<string>, currentPosition: Position, latest: Option<Row>)

  datatype PositionSource = DeclarationInitial | PositionEvent

  datatype PositionResolution = PositionResolution(
    task: string, declarationVersion: int, deployment: string, scope: Option<string>,
    position: Position, source: PositionSource, sourceEventId: Option<string>)

  function Resolved(d: Declaration, scope: Option<string>, latest: Option<Row>): ResolvedPosition
  {
    ResolvedPosition(d.task, d.version, d.deployment, d.initialPosition, scope, PositionAfter(d, latest), latest)
  }

  function ToPositionResolution(r: ResolvedPosition): PositionResolution
  {
    PositionResolution(r.task, r.declarationVersion, r.deployment, r.scope, r.currentPosition,
                       if r.latest.Some? then PositionEvent else DeclarationInitial, IdOf(r.latest))
  }

  /** An executed motion: its change, a matching approval, a matching proposal. */
  ghost predicate ExecutedBy(t: set<Row>, c: Row)
  {
    && View(t, c.motionId).Some? && View(t, c.motionId).value.status == Executed
    && View(t, c.motionId).value.toPosition == c.toPosition
    && exists a :: a in t && Of(a, c.motionId, MotionApproved) && SameIdentity(a, c)
  }

  /** Every position resolved in a reachable state is declared in the policy of
      the declaration in force, and is either the initial position of a scope no
      change ever touched or the target of the executed motion it names. */
  lemma ResolutionProvenance(cat: Catalog, acts: seq<Action>, d: Declaration, scope: Option<string>)
    requires History(cat, acts) && Declares(cat, d)
    ensures var t := After({}, acts);
            var k := TripleFor(d, scope);
            var r := ToPositionResolution(Resolved(d, scope, Latest(t, k)));
            && r.position in d.policy
            && (r.source == DeclarationInitial <==> Changes(t, k) == {})
            && (r.source == DeclarationInitial ==> r.position == d.initialPosition && r.sourceEventId == None)
            && (r.source == PositionEvent ==>
                  exists c :: c in t && IsChange(c, k) && r.sourceEventId == Some(c.id) &&
                    r.position == c.toPosition && ExecutedBy(t, c))
  {
    var t := After({}, acts);
    InvRun(cat, {}, acts);
    LatestIsGreatest(t, TripleFor(d, scope));
    assert Sound(d);
    if Latest(t, TripleFor(d, scope)).Some? {
      TargetDeclared(cat, t, d, scope, Latest(t, TripleFor(d, scope)).value);
      ChangeIsExecuted(cat, t, Latest(t, TripleFor(d, scope)).value);
    }
  }

  lemma TargetDeclared(cat: Catalog, t: set<Row>, d: Declaration, scope: Option<string>, c: Row)
    requires Rooted(cat, t) && Declares(cat, d) && Sound(d) && c in Changes(t, TripleFor(d, scope))
    ensures c.toPosition in d.policy
  {
    assert Governed(cat, c);
  }

  lemma ChangeIsExecuted(cat: Catalog, t: set<Row>, c: Row)
    requires Inv(cat, t) && c in t && c.event == PositionChanged
    ensures ExecutedBy(t, c)
  {
    StatusMeans(cat, t, c.motionId);
    assert c in MotionRows(t, c.motionId);
    FindIs(t, c);
    assert Has(t, c.motionId, MotionApproved);
    var a :| a in t && Of(a, c.motionId, MotionApproved);
    var p := ProposalOf(t, c);
    FindIs(t, p);
    OneIdentity(cat, t, a, c);
  }

  /** Every committed row records an edge its own declaration declares, between
      two different positions of its policy, in a scope it declares. */
  lemma RowsAreGoverned(cat: Catalog, acts: seq<Action>, e: Row)
    requires History(cat, acts) && e in After({}, acts)
    ensures (e.task, e.declarationVersion) in cat
    ensures var d := cat[(e.task, e.declarationVersion)];
            && d.task == e.task && d.version == e.declarationVersion
            && e.fromPosition != e.toPosition && e.fromPosition in d.policy && e.toPosition in d.policy
            && ((e.fromPosition == d.promotion.fromPosition && e.toPosition == d.promotion.toPosition) ||
                (e.fromPosition == d.demotion.fromPosition && e.toPosition == d.demotion.toPosition))
            && (d.scopes.None? ==> e.scope.None?)
            && (d.scopes.Some? ==> e.scope.Some? && e.scope.value in d.scopes.value)
  {
    InvRun(cat, {}, acts);
    assert Governed(cat, e);
  }
}
