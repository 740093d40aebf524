/** What the clock hypothesis H1 buys: the position changes of every exact
    scope form one path, and stale authority can never be exercised. */
module Chain {
  import opened Text
  import opened Events
  import opened Reads
  import opened Declarations
  import opened Lifecycle
  import opened Histories

  ghost function DeclarationOf(cat: Catalog, e: Row): Declaration
    requires (e.task, e.declarationVersion) in cat
  {
    cat[(e.task, e.declarationVersion)]
  }

  /** The position the history before e leads to. */
  ghost function PositionBefore(cat: Catalog, t: set<Row>, e: Row): Position
    requires (e.task, e.declarationVersion) in cat
  {
    PositionAfter(DeclarationOf(cat, e), RevisionAt(t, e))
  }

  /** Row e starts where the history before it ended. */
  ghost predicate Truthful(cat: Catalog, t: set<Row>, e: Row)
  {
    (e.task, e.declarationVersion) in cat && e.fromPosition == PositionBefore(cat, t, e)
  }

  /** A change was decided on the revision its proposal was made at; a demotion,
      whose rows may tie, may place its own change before its proposal. */
  ghost predicate Fresh(t: set<Row>, c: Row)
  {
    forall p {:trigger RevisionAt(t, p)} :: p in t && Of(p, c.motionId, MotionProposed) ==>
      RevisionAt(t, p) == RevisionAt(t, c) || RevisionAt(t, p) == Some(c)
  }

  ghost predicate OpenIsTruthful(cat: Catalog, t: set<Row>)
  {
    forall p {:trigger Truthful(cat, t, p)} :: Open(t, p) ==> Truthful(cat, t, p)
  }

  ghost predicate ChangesAreTruthful(cat: Catalog, t: set<Row>)
  {
    forall c {:trigger Truthful(cat, t, c)} :: c in t && c.event == PositionChanged ==> Truthful(cat, t, c)
  }

  ghost predicate ScopeTruthful(cat: Catalog, t: set<Row>, k: Triple)
  {
    forall c {:trigger Truthful(cat, t, c)} :: c in t && IsChange(c, k) ==> Truthful(cat, t, c)
  }

  ghost predicate ChangesAreFresh(t: set<Row>)
  {
    forall c {:trigger Fresh(t, c)} :: c in t && c.event == PositionChanged ==> Fresh(t, c)
  }

  ghost predicate Chained(cat: Catalog, t: set<Row>)
  {
    Inv(cat, t) && OpenIsTruthful(cat, t) && ChangesAreTruthful(cat, t) && ChangesAreFresh(t)
  }

  // ----- One transaction -----

  lemma RevisionKept(t: set<Row>, b: set<Row>, e: Row)
    requires e in t && SortsAfter(t, b)
    ensures RevisionAt(t + b, e) == RevisionAt(t, e)
  {
    var k := TripleOf(e);
    forall x | x in b ensures !BeforePoint(x, e.createdAt, e.id) {
      PrecedesAsymmetric(e, x);
    }
    assert ChangesBefore(t + b, k, e.createdAt, e.id) == ChangesBefore(t, k, e.createdAt, e.id);
  }

  /** A row written by this transaction sees every earlier change, and at most
      the transaction's own. */
  lemma RevisionOfNew(t: set<Row>, act: Action, e: Row)
    requires Enabled(t, act) && Admits(t, NewRows(act)) && SortsAfter(t, NewRows(act)) && e in NewRows(act)
    ensures (act.Approve? || act.Demote?) && BeforePoint(act.c, e.createdAt, e.id) ==>
              RevisionAt(t + NewRows(act), e) == Some(act.c)
    ensures !((act.Approve? || act.Demote?) && BeforePoint(act.c, e.createdAt, e.id)) ==>
              RevisionAt(t + NewRows(act), e) == Latest(t, TripleOf(e))
  {
    var b := NewRows(act);
    var k := TripleOf(e);
    var s := ChangesBefore(t + b, k, e.createdAt, e.id);
    NewRowsCopy(t, act, e);
    forall x | x in Changes(t, k) ensures x in s {
      assert Precedes(x, e);
    }
    if (act.Approve? || act.Demote?) && BeforePoint(act.c, e.createdAt, e.id) {
      NewRowsCopy(t, act, act.c);
      assert s == Changes(t, k) + {act.c};
      forall x | x in s && x != act.c ensures Precedes(x, act.c) {
        assert x in t && act.c in b;
      }
      LastIs(s, act.c);
    } else {
      forall x | x in s ensures x in Changes(t, k) {
        if x in b { NewRowsCopy(t, act, x); }
      }
      assert s == Changes(t, k);
    }
  }

  /** Whatever is approved or demoted starts at the position now in force. */
  lemma ExecutedFromFold(cat: Catalog, t: set<Row>, act: Action)
    requires Accepted(cat) && Table(t) && OpenIsTruthful(cat, t) && Step(cat, t, act)
    requires act.Approve? || act.Demote?
    ensures act.c.fromPosition == Fold(t, act.d, act.c.scope)
    ensures act.Approve? ==> RevisionAt(t, act.p) == Latest(t, TripleOf(act.p))
  {
    if act.Approve? {
      var p := act.p;
      assert Truthful(cat, t, p);
      LatestIsGreatest(t, TripleOf(p));
      LatestBeforeIsGreatest(t, TripleOf(p), p.createdAt, p.id);
      if RevisionAt(t, p).Some? && Latest(t, TripleOf(p)).Some? {
        assert Clash(RevisionAt(t, p).value, Latest(t, TripleOf(p)).value);
      }
    }
  }

  lemma TruthKept(cat: Catalog, t: set<Row>, b: set<Row>, e: Row)
    requires Truthful(cat, t, e) && e in t && SortsAfter(t, b)
    ensures Truthful(cat, t + b, e)
  {
    RevisionKept(t, b, e);
  }

  lemma StillOpen(t: set<Row>, b: set<Row>, p: Row)
    requires Open(t + b, p) && p in t
    ensures Open(t, p)
  {
    assert KindsOf(t, p.motionId) <= KindsOf(t + b, p.motionId);
    assert p.event in KindsOf(t, p.motionId);
  }

  lemma NewProposalTruthful(cat: Catalog, t: set<Row>, act: Action, p: Row)
    requires InForce(cat, act) && Enabled(t, act) && Admits(t, NewRows(act)) && SortsAfter(t, NewRows(act))
    requires p in NewRows(act) && Open(t + NewRows(act), p)
    ensures Truthful(cat, t + NewRows(act), p)
  {
    if act.Demote? { OpenHasNoSiblings(t + NewRows(act), p, act.c); }
    assert act.Propose? && p == act.p;
    RevisionOfNew(t, act, p);
  }

  lemma OpenIsTruthfulStep(cat: Catalog, t: set<Row>, act: Action)
    requires OpenIsTruthful(cat, t) && Step(cat, t, act) && SortsAfter(t, NewRows(act))
    ensures OpenIsTruthful(cat, t + NewRows(act))
  {
    forall p | Open(t + NewRows(act), p) ensures Truthful(cat, t + NewRows(act), p) {
      if p in t {
        StillOpen(t, NewRows(act), p);
        TruthKept(cat, t, NewRows(act), p);
      } else {
        NewProposalTruthful(cat, t, act, p);
      }
    }
  }

  lemma NewChangeTruthful(cat: Catalog, t: set<Row>, act: Action)
    requires Accepted(cat) && Table(t) && OpenIsTruthful(cat, t) && Step(cat, t, act) && SortsAfter(t, NewRows(act))
    requires act.Approve? || act.Demote?
    ensures Truthful(cat, t + NewRows(act), act.c)
  {
    ExecutedFromFold(cat, t, act);
    PrecedesIrreflexive(act.c);
    NewRowsCopy(t, act, act.c);
    RevisionOfNew(t, act, act.c);
  }

  lemma NewChangeIs(t: set<Row>, act: Action, c: Row)
    requires Enabled(t, act) && c in NewRows(act) && c.event == PositionChanged
    ensures (act.Approve? || act.Demote?) && c == act.c
  {
  }

  lemma ChangesAreTruthfulStep(cat: Catalog, t: set<Row>, act: Action)
    requires Accepted(cat) && Table(t) && OpenIsTruthful(cat, t) && ChangesAreTruthful(cat, t)
    requires Step(cat, t, act) && SortsAfter(t, NewRows(act))
    ensures ChangesAreTruthful(cat, t + NewRows(act))
  {
    forall c | c in t + NewRows(act) && c.event == PositionChanged ensures Truthful(cat, t + NewRows(act), c) {
      if c in t {
        TruthKept(cat, t, NewRows(act), c);
      } else {
        NewChangeIs(t, act, c);
        NewChangeTruthful(cat, t, act);
      }
    }
  }

  lemma OldChangeStaysFresh(cat: Catalog, t: set<Row>, act: Action, c: Row)
    requires Inv(cat, t) && Step(cat, t, act) && SortsAfter(t, NewRows(act))
    requires c in t && c.event == PositionChanged && Fresh(t, c)
    ensures Fresh(t + NewRows(act), c)
  {
    var t' := t + NewRows(act);
    RevisionKept(t, NewRows(act), c);
    forall p | p in t' && Of(p, c.motionId, MotionProposed)
      ensures RevisionAt(t', p) == RevisionAt(t', c) || RevisionAt(t', p) == Some(c)
    {
      if p !in t {
        NewRowsCopy(t, act, p);
        PriorRows(cat, t, act, c);
      }
      RevisionKept(t, NewRows(act), p);
    }
  }

  lemma NewChangeIsFresh(cat: Catalog, t: set<Row>, act: Action)
    requires Accepted(cat) && Inv(cat, t) && OpenIsTruthful(cat, t)
    requires Step(cat, t, act) && SortsAfter(t, NewRows(act))
    requires act.Approve? || act.Demote?
    ensures Fresh(t + NewRows(act), act.c)
  {
    var t' := t + NewRows(act);
    var c := act.c;
    NewRowsCopy(t, act, c);
    PrecedesIrreflexive(c);
    RevisionOfNew(t, act, c);
    ExecutedFromFold(cat, t, act);
    assert Inv(cat, t') by { InvStep(cat, t, act); }
    forall p | p in t' && Of(p, c.motionId, MotionProposed)
      ensures RevisionAt(t', p) == RevisionAt(t', c) || RevisionAt(t', p) == Some(c)
    {
      assert Clash(p, act.p);
      if act.Approve? {
        RevisionKept(t, NewRows(act), p);
      } else {
        RevisionOfNew(t, act, p);
      }
    }
  }

  lemma ChangesAreFreshStep(cat: Catalog, t: set<Row>, act: Action)
    requires Accepted(cat) && Inv(cat, t) && OpenIsTruthful(cat, t) && ChangesAreFresh(t)
    requires Step(cat, t, act) && SortsAfter(t, NewRows(act))
    ensures ChangesAreFresh(t + NewRows(act))
  {
    forall c | c in t + NewRows(act) && c.event == PositionChanged ensures Fresh(t + NewRows(act), c) {
      if c in t {
        OldChangeStaysFresh(cat, t, act, c);
      } else {
        NewChangeIs(t, act, c);
        NewChangeIsFresh(cat, t, act);
      }
    }
  }

  lemma ChainedStep(cat: Catalog, t: set<Row>, act: Action)
    requires Accepted(cat) && Chained(cat, t)
    requires Step(cat, t, act) && SortsAfter(t, NewRows(act))
    ensures Chained(cat, t + NewRows(act))
  {
    InvStep(cat, t, act);
    OpenIsTruthfulStep(cat, t, act);
    ChangesAreTruthfulStep(cat, t, act);
    ChangesAreFreshStep(cat, t, act);
  }

  lemma {:induction false} ChainedRun(cat: Catalog, t: set<Row>, acts: seq<Action>)
    requires Accepted(cat) && Chained(cat, t) && Run(cat, t, acts) && Orderly(t, acts)
    ensures Chained(cat, After(t, acts))
    decreases |acts|
  {
    if acts != [] {
      ChainedStep(cat, t, acts[0]);
      ChainedRun(cat, t + NewRows(acts[0]), acts[1..]);
    }
  }
}
