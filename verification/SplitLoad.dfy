/** `demote` loads its declaration twice.  What happens when a new version lands
    between the two loads, and exactly when it does no harm. */
module SplitLoad {
  import opened Text
  import opened Events
  import opened Reads
  import opened Declarations
  import opened Lifecycle
  import opened Histories
  import opened Motions
  import opened SqliteStore
  import opened Decisions
  import opened Authority
  import opened ChainExact
  import BackwardClock

  /** The rows a demotion writes when its first load answered `first`: whatever
      the second load answers, they carry the first one's version. */
  function SplitRows(first: Declaration, scope: Option<string>, evidence: (string, string), motionId: string,
                     draw: nat -> Stamp, actor: string, reason: string): (rows: seq<Row>)
    ensures |rows| == 3
  {
    Siblings(DemotionTemplate(first, scope, first.demotion.fromPosition, evidence, motionId, actor, reason),
             DEMOTION_KINDS, draw, actor, reason)
  }

  function SplitAction(first: Declaration, rows: seq<Row>): Action
    requires |rows| == 3
  {
    Demote(first, rows[0], rows[1], rows[2])
  }

  lemma SplitRowsAre(first: Declaration, scope: Option<string>, evidence: (string, string), motionId: string,
                     draw: nat -> Stamp, actor: string, reason: string)
    ensures var rows := SplitRows(first, scope, evidence, motionId, draw, actor, reason);
            && RowsOf(rows) == {rows[0], rows[1], rows[2]}
            && rows[0].event == MotionProposed && rows[1].event == MotionApproved && rows[2].event == PositionChanged
            && forall i :: 0 <= i < 3 ==>
                 && TripleOf(rows[i]) == TripleFor(first, scope) && rows[i].motionId == motionId
                 && Edge(rows[i].fromPosition, rows[i].toPosition) == first.demotion && SameIdentity(rows[i], rows[0])
  {
    var rows := SplitRows(first, scope, evidence, motionId, draw, actor, reason);
    var template := DemotionTemplate(first, scope, first.demotion.fromPosition, evidence, motionId, actor, reason);
    assert forall i :: 0 <= i < 3 ==> rows[i] == Sibling(template, DEMOTION_KINDS[i], draw(i), actor, reason);
    assert rows == [rows[0], rows[1], rows[2]];
  }

  /** The two loads answered `first` and `second`, and the call decided to write. */
  ghost predicate SplitWrites(t: set<Row>, one: Loaded, two: Loaded, first: Declaration, second: Declaration,
                              scope: Option<string>)
  {
    && first.task == second.task && ScopeAllowed(first, scope)
    && Lookup(one, first.task) == Some(first) && Lookup(two, first.task) == Some(second)
    && DemoteVerdict(t, one, two, first.task, scope) == Write
  }

  /** What is written is a legal transaction of the version it records if and only
      if both versions were at the same position. */
  lemma SplitDemotionLegalIff(t: set<Row>, one: Loaded, two: Loaded, first: Declaration, second: Declaration,
                              scope: Option<string>, evidence: (string, string), motionId: string,
                              draw: nat -> Stamp, actor: string, reason: string)
    requires SplitWrites(t, one, two, first, second, scope)
    ensures Enabled(t, SplitAction(first, SplitRows(first, scope, evidence, motionId, draw, actor, reason))) <==>
              Fold(t, first, scope) == Fold(t, second, scope)
  {
    SplitRowsAre(first, scope, evidence, motionId, draw, actor, reason);
  }

  lemma DemotionAddsChange(cat: Catalog, t: set<Row>, d: Declaration, scope: Option<string>, p: Row, a: Row, c: Row)
    requires Declares(cat, d) && ScopeAllowed(d, scope) && TripleOf(c) == TripleFor(d, scope)
    requires Edge(c.fromPosition, c.toPosition) == d.demotion
    requires p.event == MotionProposed && a.event == MotionApproved && c.event == PositionChanged
    requires Admits(t, {p, a, c})
    ensures AddsChange(cat, t, {p, a, c}, c)
  {
    assert Changes(t + {p, a, c}, TripleOf(c)) == Changes(t, TripleOf(c)) + {c};
  }

  /** A recorded demotion of d keeps the path of d if and only if its change is
      the newest there and d was at its source. */
  lemma RecordedDemotionKeepsPathIff(cat: Catalog, t: set<Row>, d: Declaration, scope: Option<string>, p: Row, a: Row,
                                     c: Row)
    requires Accepted(cat) && Table(t) && Declares(cat, d) && OnePath(t, d, scope) && ScopeAllowed(d, scope)
    requires TripleOf(c) == TripleFor(d, scope) && Edge(c.fromPosition, c.toPosition) == d.demotion
    requires p.event == MotionProposed && a.event == MotionApproved && c.event == PositionChanged
    requires Admits(t, {p, a, c})
    ensures OnePath(t + {p, a, c}, d, scope) <==> Newest(t, c) && d.demotion.fromPosition == Fold(t, d, scope)
  {
    DemotionAddsChange(cat, t, d, scope, p, a, c);
    OnePathIff(cat, t, d, scope);
    OnePathIff(cat, t + {p, a, c}, d, scope);
    ChangeKeepsChainIff(cat, t, {p, a, c}, c);
  }

  lemma SplitSource(t: set<Row>, one: Loaded, two: Loaded, first: Declaration, second: Declaration,
                    scope: Option<string>)
    requires SplitWrites(t, one, two, first, second, scope)
    ensures Fold(t, second, scope) == first.demotion.fromPosition
  {
  }

  /** Once committed, the changes recorded for the first version's scope still
      form one path if and only if both versions were at the same position and the
      new change is the newest there. */
  lemma SplitDemotionKeepsPathIff(cat: Catalog, t: set<Row>, one: Loaded, two: Loaded, first: Declaration,
                                  second: Declaration, scope: Option<string>, evidence: (string, string),
                                  motionId: string, draw: nat -> Stamp, actor: string, reason: string)
    requires Accepted(cat) && Inv(cat, t) && Declares(cat, first) && OnePath(t, first, scope)
    requires SplitWrites(t, one, two, first, second, scope)
    requires Admits(t, RowsOf(SplitRows(first, scope, evidence, motionId, draw, actor, reason)))
    ensures var rows := SplitRows(first, scope, evidence, motionId, draw, actor, reason);
            OnePath(t + RowsOf(rows), first, scope) <==>
              Fold(t, first, scope) == Fold(t, second, scope) && Newest(t, rows[2])
  {
    var rows := SplitRows(first, scope, evidence, motionId, draw, actor, reason);
    SplitRowsAre(first, scope, evidence, motionId, draw, actor, reason);
    SplitSource(t, one, two, first, second, scope);
    RecordedDemotionKeepsPathIff(cat, t, first, scope, rows[0], rows[1], rows[2]);
  }

  /** A harmful switch, on an empty store: the second version starts where the
      first one's demotion starts, the first one does not.  The call writes, the
      motion projects to executed, and its change is no path of its version. */
  lemma HarmfulSwitch(one: Loaded, two: Loaded, first: Declaration, second: Declaration, scope: Option<string>,
                      evidence: (string, string), motionId: string, draw: nat -> Stamp, actor: string, reason: string)
    requires first.task == second.task && ScopeAllowed(first, scope) && ScopeAllowed(second, scope)
    requires Lookup(one, first.task) == Some(first) && Lookup(two, first.task) == Some(second)
    requires second.initialPosition == first.demotion.fromPosition != first.initialPosition
    requires Consistent(SplitRows(first, scope, evidence, motionId, draw, actor, reason))
    ensures SplitWrites({}, one, two, first, second, scope)
    ensures var rows := SplitRows(first, scope, evidence, motionId, draw, actor, reason);
            && Lists([rows[2]], Changes(RowsOf(rows), TripleFor(first, scope)))
            && !Path([rows[2]], first.initialPosition)
            && View(RowsOf(rows), motionId).Some? && View(RowsOf(rows), motionId).value.status == Executed
  {
    var rows := SplitRows(first, scope, evidence, motionId, draw, actor, reason);
    SplitRowsAre(first, scope, evidence, motionId, draw, actor, reason);
    assert Changes({}, TripleFor(first, scope)) == {} && Changes({}, TripleFor(second, scope)) == {};
    assert Changes(RowsOf(rows), TripleFor(first, scope)) == {rows[2]};
    ConsistentIsTable(rows);
    FindIs(RowsOf(rows), rows[0]);
    FindIs(RowsOf(rows), rows[2]);
  }

  const FIRST := BackwardClock.TASK
  const SECOND := FIRST.(version := 2, initialPosition := Hotl)

  /** Two accepted declarations of one task that switch harmfully. */
  lemma SwitchExists()
    ensures Accepted(map[("refund", 1) := FIRST, ("refund", 2) := SECOND])
    ensures FIRST.task == SECOND.task && ScopeAllowed(FIRST, None) && ScopeAllowed(SECOND, None)
    ensures SECOND.initialPosition == FIRST.demotion.fromPosition != FIRST.initialPosition
  {
  }
}
