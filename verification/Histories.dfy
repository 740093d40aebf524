/** Facts about every run that need no assumption about the clock. */
module Histories {
  import opened Text
  import opened Events
  import opened Reads
  import opened Lifecycle

  // ----- The inductive invariant -----

  ghost predicate Has(t: set<Row>, motionId: string, kind: EventKind)
  {
    exists e :: e in t && Of(e, motionId, kind)
  }

  ghost predicate HasProposal(t: set<Row>, e: Row)
  {
    exists p :: p in t && p.event == MotionProposed && p.motionId == e.motionId && SameIdentity(e, p)
  }

  /** The row's transition is one its own declaration version declares. */
  ghost predicate Governed(cat: Catalog, e: Row)
  {
    && (e.task, e.declarationVersion) in cat
    && ScopeAllowed(cat[(e.task, e.declarationVersion)], e.scope)
    && DeclaredTransition(cat[(e.task, e.declarationVersion)], e.fromPosition, e.toPosition)
  }

  /** An approval and its position change stand or fall together. */
  ghost predicate Paired(t: set<Row>)
  {
    && (forall e :: e in t && e.event == MotionApproved ==> Has(t, e.motionId, PositionChanged))
    && (forall e :: e in t && e.event == PositionChanged ==> Has(t, e.motionId, MotionApproved))
  }

  predicate Tolerates(e: Row, x: Row)
  {
    e.event == MotionRejected ==> x.event == MotionProposed || x.event == MotionRejected
  }

  /** A rejected motion has nothing but its proposal and its rejection. */
  ghost predicate DecidedOnce(t: set<Row>)
  {
    forall e, x {:trigger Tolerates(e, x)} :: e in t && x in t && e.motionId == x.motionId ==> Tolerates(e, x)
  }

  ghost predicate Rooted(cat: Catalog, t: set<Row>)
  {
    && (forall e {:trigger HasProposal(t, e)} :: e in t ==> HasProposal(t, e))
    && (forall e {:trigger Governed(cat, e)} :: e in t ==> Governed(cat, e))
  }

  ghost predicate Inv(cat: Catalog, t: set<Row>)
  {
    Table(t) && Rooted(cat, t) && Paired(t) && DecidedOnce(t)
  }

  lemma ProposalOf(t: set<Row>, e: Row) returns (p: Row)
    requires HasProposal(t, e)
    ensures p in t && Of(p, e.motionId, MotionProposed) && SameIdentity(e, p)
  {
    p :| p in t && p.event == MotionProposed && p.motionId == e.motionId && SameIdentity(e, p);
  }

  lemma OpenHasNoSiblings(t: set<Row>, p: Row, x: Row)
    requires Open(t, p) && x in t && x.motionId == p.motionId
    ensures x.event == MotionProposed
  {
    assert x.event in KindsOf(t, p.motionId);
  }

  /** Everything a transaction writes copies its proposal. */
  lemma NewRowsCopy(t: set<Row>, act: Action, e: Row)
    requires Enabled(t, act) && e in NewRows(act)
    ensures SameIdentity(e, act.p) && e.motionId == act.p.motionId
    ensures act.p.event == MotionProposed && act.p in t + NewRows(act)
  {
  }

  lemma ProposalGoverned(cat: Catalog, t: set<Row>, act: Action)
    requires Accepted(cat) && Rooted(cat, t) && InForce(cat, act) && Enabled(t, act)
    ensures Governed(cat, act.p)
  {
    if !act.Reject? {
      assert cat[(act.d.task, act.d.version)] == act.d;
      assert act.Approve? ==> act.p in t;
    }
  }

  lemma RootedStep(cat: Catalog, t: set<Row>, act: Action)
    requires Accepted(cat) && Rooted(cat, t) && InForce(cat, act) && Enabled(t, act)
    ensures Rooted(cat, t + NewRows(act))
  {
    var t' := t + NewRows(act);
    ProposalGoverned(cat, t, act);
    forall e | e in t' ensures HasProposal(t', e) && Governed(cat, e) {
      if e in t {
        var q := ProposalOf(t, e);
        assert q in t';
      } else {
        NewRowsCopy(t, act, e);
      }
    }
  }

  lemma HasMonotone(t: set<Row>, t': set<Row>, motionId: string, kind: EventKind)
    requires Has(t, motionId, kind) && t <= t'
    ensures Has(t', motionId, kind)
  {
    var e :| e in t && Of(e, motionId, kind);
  }

  lemma PairedStep(t: set<Row>, act: Action)
    requires Paired(t) && Enabled(t, act)
    ensures Paired(t + NewRows(act))
  {
    var t' := t + NewRows(act);
    if act.Approve? || act.Demote? {
      assert act.a in t' && Of(act.a, act.p.motionId, MotionApproved);
      assert act.c in t' && Of(act.c, act.p.motionId, PositionChanged);
    }
    forall e | e in t' && e.event == MotionApproved ensures Has(t', e.motionId, PositionChanged) {
      if e in t { HasMonotone(t, t', e.motionId, PositionChanged); }
    }
    forall e | e in t' && e.event == PositionChanged ensures Has(t', e.motionId, MotionApproved) {
      if e in t { HasMonotone(t, t', e.motionId, MotionApproved); }
    }
  }

  /** A motion that already has a row has a proposal, so the unique index
      refuses a second one: new motion ids need not be assumed fresh. */
  lemma NewMotionIsNew(cat: Catalog, t: set<Row>, act: Action, x: Row)
    requires Rooted(cat, t) && Step(cat, t, act) && (act.Propose? || act.Demote?)
    requires x in t
    ensures x.motionId != act.p.motionId
  {
    var q := ProposalOf(t, x);
    assert act.p in NewRows(act);
    assert q != act.p && !Clash(q, act.p);
  }

  /** What the transaction finds already committed for its motion. */
  lemma PriorRows(cat: Catalog, t: set<Row>, act: Action, x: Row)
    requires Rooted(cat, t) && Step(cat, t, act) && x in t && x.motionId == act.p.motionId
    ensures (act.Reject? || act.Approve?) && x.event == MotionProposed
  {
    if act.Propose? || act.Demote? {
      NewMotionIsNew(cat, t, act, x);
    } else {
      OpenHasNoSiblings(t, act.p, x);
    }
  }

  lemma DecidedOnceStep(cat: Catalog, t: set<Row>, act: Action)
    requires Rooted(cat, t) && DecidedOnce(t) && Step(cat, t, act)
    ensures DecidedOnce(t + NewRows(act))
  {
    var t' := t + NewRows(act);
    forall e, x | e in t' && x in t' && e.motionId == x.motionId ensures Tolerates(e, x)
    {
      if e in t && x in t {
      } else if e in t {
        NewRowsCopy(t, act, x);
        PriorRows(cat, t, act, e);
      } else {
        NewRowsCopy(t, act, e);
        if x in t { PriorRows(cat, t, act, x); }
      }
    }
  }

  lemma InvStep(cat: Catalog, t: set<Row>, act: Action)
    requires Accepted(cat) && Inv(cat, t) && Step(cat, t, act)
    ensures Inv(cat, t + NewRows(act))
  {
    RootedStep(cat, t, act);
    PairedStep(t, act);
    DecidedOnceStep(cat, t, act);
  }

  lemma {:induction false} InvRun(cat: Catalog, t: set<Row>, acts: seq<Action>)
    requires Accepted(cat) && Inv(cat, t) && Run(cat, t, acts)
    ensures Inv(cat, After(t, acts))
    decreases |acts|
  {
    if acts != [] {
      InvStep(cat, t, acts[0]);
      InvRun(cat, t + NewRows(acts[0]), acts[1..]);
    }
  }

  lemma {:induction false} AppendOnly(t: set<Row>, acts: seq<Action>)
    ensures t <= After(t, acts)
    decreases |acts|
  {
    if acts != [] { AppendOnly(t + NewRows(acts[0]), acts[1..]); }
  }

  // ----- Runs grow at the end, split and join -----

  lemma {:induction false} RunAppend(cat: Catalog, t: set<Row>, acts: seq<Action>, act: Action)
    requires Run(cat, t, acts) && Step(cat, After(t, acts), act)
    ensures Run(cat, t, acts + [act]) && After(t, acts + [act]) == After(t, acts) + NewRows(act)
    decreases |acts|
  {
    if acts == [] {
      assert [act][1..] == [];
      assert acts + [act] == [act];
      assert After(t + NewRows(act), []) == t + NewRows(act);
    } else {
      RunAppend(cat, t + NewRows(acts[0]), acts[1..], act);
      assert (acts + [act])[1..] == acts[1..] + [act];
    }
  }

  lemma OneTransaction(cat: Catalog, t: set<Row>, act: Action)
    requires Step(cat, t, act)
    ensures Run(cat, t, [act]) && After(t, [act]) == t + NewRows(act)
  {
    assert Run(cat, t, []) && After(t, []) == t;
    RunAppend(cat, t, [], act);
    assert [] + [act] == [act];
  }

  lemma {:induction false} RunConcat(cat: Catalog, t: set<Row>, a: seq<Action>, b: seq<Action>)
    requires Run(cat, t, a) && Run(cat, After(t, a), b)
    ensures Run(cat, t, a + b) && After(t, a + b) == After(After(t, a), b)
    decreases |a|
  {
    if a == [] {
      assert a + b == b;
    } else {
      RunConcat(cat, t + NewRows(a[0]), a[1..], b);
      assert (a + b)[1..] == a[1..] + b;
    }
  }

  // ----- Atomic motion shape -----

  predicate ShapeOk(kinds: set<EventKind>)
  {
    || kinds == {}
    || kinds == {MotionProposed}
    || kinds == {MotionProposed, MotionRejected}
    || kinds == {MotionProposed, MotionApproved, PositionChanged}
  }

  /** Every motion of a committed history is proposed, proposed and rejected, or
      proposed, approved and executed; its rows agree on identity. */
  lemma MotionShape(cat: Catalog, acts: seq<Action>, motionId: string)
    requires History(cat, acts)
    ensures ShapeOk(KindsOf(After({}, acts), motionId))
    ensures forall e, x :: e in MotionRows(After({}, acts), motionId) && x in MotionRows(After({}, acts), motionId) ==>
              SameIdentity(e, x)
  {
    InvRun(cat, {}, acts);
    ShapeFromInv(cat, After({}, acts), motionId);
  }

  lemma KindIn(t: set<Row>, motionId: string, kind: EventKind)
    ensures kind in KindsOf(t, motionId) <==> Has(t, motionId, kind)
  {
  }

  lemma OneIdentity(cat: Catalog, t: set<Row>, e: Row, x: Row)
    requires Table(t) && Rooted(cat, t) && e in t && x in t && e.motionId == x.motionId
    ensures SameIdentity(e, x)
  {
    var p := ProposalOf(t, e);
    var q := ProposalOf(t, x);
    assert p == q || Clash(p, q);
  }

  lemma KindsPresent(cat: Catalog, t: set<Row>, motionId: string, k: EventKind)
    requires Table(t) && Rooted(cat, t) && k in KindsOf(t, motionId)
    ensures MotionProposed in KindsOf(t, motionId) && !k.OtherKind?
  {
    var e :| e in t && e.motionId == motionId && e.event == k;
    var p := ProposalOf(t, e);
    assert p.event in KindsOf(t, motionId);
    assert InVocabulary(e);
  }

  lemma KindsExclude(t: set<Row>, motionId: string)
    requires Paired(t) && DecidedOnce(t)
    ensures var ks := KindsOf(t, motionId);
            && (MotionApproved in ks <==> PositionChanged in ks)
            && !(MotionRejected in ks && MotionApproved in ks)
  {
    var ks := KindsOf(t, motionId);
    KindIn(t, motionId, MotionApproved);
    KindIn(t, motionId, PositionChanged);
    forall r, a | r in t && a in t && r.motionId == a.motionId == motionId && r.event == MotionRejected
      ensures a.event != MotionApproved
    {
      assert Tolerates(r, a);
    }
  }

  lemma ShapeFromInv(cat: Catalog, t: set<Row>, motionId: string)
    requires Inv(cat, t)
    ensures ShapeOk(KindsOf(t, motionId))
    ensures forall e, x :: e in MotionRows(t, motionId) && x in MotionRows(t, motionId) ==> SameIdentity(e, x)
  {
    var kinds := KindsOf(t, motionId);
    forall e, x | e in MotionRows(t, motionId) && x in MotionRows(t, motionId) ensures SameIdentity(e, x) {
      OneIdentity(cat, t, e, x);
    }
    forall k | k in kinds ensures MotionProposed in kinds && !k.OtherKind? {
      KindsPresent(cat, t, motionId, k);
    }
    KindsExclude(t, motionId);
    ShapeCases(kinds);
  }

  lemma ShapeCases(ks: set<EventKind>)
    requires forall k :: k in ks ==> MotionProposed in ks && !k.OtherKind?
    requires MotionApproved in ks <==> PositionChanged in ks
    requires !(MotionRejected in ks && MotionApproved in ks)
    ensures ShapeOk(ks)
  {
    if ks != {} {
      var k :| k in ks;
      if MotionApproved in ks {
        assert ks == {MotionProposed, MotionApproved, PositionChanged};
      } else if MotionRejected in ks {
        assert ks == {MotionProposed, MotionRejected};
      } else {
        assert ks == {MotionProposed};
      }
    }
  }

  // ----- Staleness -----

  lemma LatestIsGreatest(t: set<Row>, k: Triple)
    requires Table(t)
    ensures Latest(t, k) == None <==> Changes(t, k) == {}
    ensures Latest(t, k).Some? ==> Greatest(Changes(t, k), Latest(t, k).value)
  {
    DistinctIds(t, Changes(t, k));
    LastIsGreatest(Changes(t, k));
  }

  lemma LatestBeforeIsGreatest(t: set<Row>, k: Triple, at: string, id: string)
    requires Table(t)
    ensures LatestBefore(t, k, at, id) == None <==> ChangesBefore(t, k, at, id) == {}
    ensures LatestBefore(t, k, at, id).Some? ==>
              Greatest(ChangesBefore(t, k, at, id), LatestBefore(t, k, at, id).value)
  {
    DistinctIds(t, ChangesBefore(t, k, at, id));
    LastIsGreatest(ChangesBefore(t, k, at, id));
  }

  lemma DistinctIds(t: set<Row>, s: set<Row>)
    requires Table(t) && s <= t
    ensures forall a, b :: a in s && b in s && a != b ==> a.id != b.id
  {
    forall a, b | a in s && b in s && a != b ensures a.id != b.id {
      assert !Clash(a, b);
    }
  }

  /** The identity comparison is exact on every table, whatever its clock: a
      proposal is stale if and only if a change of its triple sorts after it. */
  lemma StaleExactly(t: set<Row>, p: Row)
    requires Table(t) && p in t && p.event == MotionProposed
    ensures Stale(t, p) <==> exists c :: c in t && IsChange(c, TripleOf(p)) && Precedes(p, c)
  {
    var k := TripleOf(p);
    var all, earlier := Changes(t, k), ChangesBefore(t, k, p.createdAt, p.id);
    LatestIsGreatest(t, k);
    LatestBeforeIsGreatest(t, k, p.createdAt, p.id);
    if c :| c in t && IsChange(c, k) && Precedes(p, c) {
      assert c in all;
      var last := Latest(t, k).value;
      if last != c { PrecedesTransitive(p, c, last); }
      PrecedesAsymmetric(p, last);
      if RevisionAt(t, p).Some? {
        assert RevisionAt(t, p).value in earlier && last !in earlier;
        assert !Clash(RevisionAt(t, p).value, last);
      }
    } else {
      forall c | c in all ensures c in earlier {
        assert !Clash(c, p);
        PrecedesTotal(c, p);
      }
      assert all == earlier;
    }
  }

  /** Once stale, a proposal is stale in every later state. */
  lemma StaleStays(t: set<Row>, t': set<Row>, p: Row)
    requires Table(t) && Table(t') && t <= t'
    requires p in t && p.event == MotionProposed && Stale(t, p)
    ensures Stale(t', p)
  {
    StaleExactly(t, p);
    StaleExactly(t', p);
  }

  lemma StaleStep(cat: Catalog, t: set<Row>, act: Action, p: Row)
    requires Inv(cat, t) && Step(cat, t, act)
    requires p in t && p.event == MotionProposed && Stale(t, p)
    requires !Has(t, p.motionId, PositionChanged)
    ensures !Has(t + NewRows(act), p.motionId, PositionChanged)
  {
    forall c | c in NewRows(act) && c.motionId == p.motionId ensures c.event != PositionChanged {
      NewRowsCopy(t, act, c);
      PriorRows(cat, t, act, p);
      if act.Approve? { assert Clash(act.p, p); }
    }
  }

  /** A proposal that has gone stale is never executed, whatever runs later and
      even if the position value cycles back. */
  lemma {:induction false} StaleNeverExecutes(cat: Catalog, t: set<Row>, acts: seq<Action>, p: Row)
    requires Accepted(cat) && Inv(cat, t) && Run(cat, t, acts)
    requires p in t && p.event == MotionProposed && Stale(t, p)
    requires !Has(t, p.motionId, PositionChanged)
    ensures !Has(After(t, acts), p.motionId, PositionChanged)
    decreases |acts|
  {
    if acts != [] {
      var t' := t + NewRows(acts[0]);
      StaleStep(cat, t, acts[0], p);
      InvStep(cat, t, acts[0]);
      StaleStays(t, t', p);
      StaleNeverExecutes(cat, t', acts[1..], p);
    }
  }

  // ----- Exclusivity -----

  /** The transaction writes a change of scope k: an approval or a demotion there. */
  predicate Executes(act: Action, k: Triple)
  {
    (act.Approve? || act.Demote?) && TripleOf(act.p) == k
  }

  /** What an execution does to the staleness of any proposal on its scope, whatever
      the clock: it goes stale exactly if the new change sorts after it. */
  lemma StaleAfterIff(t: set<Row>, act: Action, q: Row)
    requires Table(t) && Enabled(t, act) && Admits(t, NewRows(act)) && Executes(act, TripleOf(q))
    requires q in t && q.event == MotionProposed
    ensures Stale(t + NewRows(act), q) <==> Stale(t, q) || Precedes(q, act.c)
  {
    var t' := t + NewRows(act);
    StaleExactly(t, q);
    StaleExactly(t', q);
    NewRowsCopy(t, act, act.c);
    assert act.c in t';
    forall x | x in t' && IsChange(x, TripleOf(q)) ensures x in t || x == act.c { }
  }

  /** An open proposal that could still be approved can be approved after another
      motion of its scope is executed if and only if that change sorts before it. */
  lemma StillApprovableIff(cat: Catalog, t: set<Row>, act: Action, q: Row)
    requires Inv(cat, t) && Step(cat, t, act) && Executes(act, TripleOf(q)) && act.p.motionId != q.motionId
    requires Open(t, q) && !Stale(t, q)
    ensures Open(t + NewRows(act), q) && (!Stale(t + NewRows(act), q) <==> Precedes(act.c, q))
  {
    var t' := t + NewRows(act);
    forall x | x in NewRows(act) ensures x.motionId != q.motionId { NewRowsCopy(t, act, x); }
    assert KindsOf(t', q.motionId) == KindsOf(t, q.motionId);
    StaleAfterIff(t, act, q);
    assert act.c in t' && q in t' && !Clash(act.c, q) by { assert act.c in NewRows(act); }
    PrecedesTotal(act.c, q);
    if Precedes(act.c, q) { PrecedesAsymmetric(act.c, q); }
  }

  /** The change a transaction writes for the motion of a committed proposal is the
      one it executes, on that proposal's scope. */
  lemma ExecutesProposal(cat: Catalog, t: set<Row>, act: Action, p: Row, c: Row)
    requires Inv(cat, t) && Step(cat, t, act) && p in t && p.event == MotionProposed
    requires c in NewRows(act) && Of(c, p.motionId, PositionChanged)
    ensures act.Approve? && act.p == p && c == act.c && Executes(act, TripleOf(p))
  {
    NewRowsCopy(t, act, c);
    PriorRows(cat, t, act, p);
    assert Clash(act.p, p);
  }

  /** Once p is executed, q of the same scope is executed later only if the change
      of p sorts before q. */
  lemma NextNeedsEarlierChange(cat: Catalog, t: set<Row>, acts: seq<Action>, p: Row, q: Row, c: Row)
    requires Accepted(cat) && Inv(cat, t) && acts != [] && Run(cat, t, acts)
    requires p in t && q in t && p.event == q.event == MotionProposed && TripleOf(p) == TripleOf(q) && p != q
    requires !Has(t, q.motionId, PositionChanged)
    requires c in NewRows(acts[0]) && Of(c, p.motionId, PositionChanged)
    requires Has(After(t, acts), q.motionId, PositionChanged)
    ensures Precedes(c, q)
  {
    var t' := t + NewRows(acts[0]);
    ExecutesProposal(cat, t, acts[0], p, c);
    InvStep(cat, t, acts[0]);
    OtherMotion(t', p, q, c);
    StaleAfterIff(t, acts[0], q);
    if Precedes(q, c) {
      NoChangeYet(t, acts[0], p, q, c);
      StaleNeverExecutes(cat, t', acts[1..], q);
    }
    PrecedesTotal(c, q);
  }

  lemma OtherMotion(t: set<Row>, p: Row, q: Row, c: Row)
    requires Table(t) && p in t && q in t && c in t && p != q && p.event == q.event == MotionProposed
    requires Of(c, p.motionId, PositionChanged)
    ensures p.motionId != q.motionId && c.id != q.id
  {
    assert !Clash(p, q) && !Clash(c, q);
  }

  lemma NoChangeYet(t: set<Row>, act: Action, p: Row, q: Row, c: Row)
    requires Enabled(t, act) && c in NewRows(act) && Of(c, p.motionId, PositionChanged) && p.motionId != q.motionId
    requires !Has(t, q.motionId, PositionChanged)
    ensures !Has(t + NewRows(act), q.motionId, PositionChanged)
  {
    forall x | x in NewRows(act) ensures x.motionId == p.motionId {
      NewRowsCopy(t, act, x);
      NewRowsCopy(t, act, c);
    }
  }

  /** In every run, whatever its clock: of two proposals of one scope, both are
      executed only if the change of one sorts before the other proposal. */
  lemma {:induction false} BothExecutedOnlyIf(cat: Catalog, t: set<Row>, acts: seq<Action>, p: Row, q: Row,
                                              c: Row, e: Row)
    requires Accepted(cat) && Inv(cat, t) && Run(cat, t, acts)
    requires p in t && q in t && p.event == q.event == MotionProposed && TripleOf(p) == TripleOf(q) && p != q
    requires !Has(t, p.motionId, PositionChanged) && !Has(t, q.motionId, PositionChanged)
    requires c in After(t, acts) && Of(c, p.motionId, PositionChanged)
    requires e in After(t, acts) && Of(e, q.motionId, PositionChanged)
    ensures Precedes(c, q) || Precedes(e, p)
    decreases |acts|
  {
    if acts != [] {
      var b, t' := NewRows(acts[0]), t + NewRows(acts[0]);
      InvStep(cat, t, acts[0]);
      InvRun(cat, t', acts[1..]);
      AppendOnly(t', acts[1..]);
      if x :| x in b && Of(x, p.motionId, PositionChanged) {
        NextNeedsEarlierChange(cat, t, acts, p, q, x);
        assert Clash(x, c);
      } else if x :| x in b && Of(x, q.motionId, PositionChanged) {
        NextNeedsEarlierChange(cat, t, acts, q, p, x);
        assert Clash(x, e);
      } else {
        BothExecutedOnlyIf(cat, t', acts[1..], p, q, c, e);
      }
    }
  }

  // ----- Decisions are final -----

  lemma DecidedStep(cat: Catalog, t: set<Row>, act: Action, motionId: string)
    requires Inv(cat, t) && Step(cat, t, act)
    requires exists x :: x in MotionRows(t, motionId) && x.event != MotionProposed
    ensures MotionRows(t + NewRows(act), motionId) == MotionRows(t, motionId)
  {
    var x :| x in MotionRows(t, motionId) && x.event != MotionProposed;
    forall e | e in NewRows(act) ensures e.motionId != motionId {
      NewRowsCopy(t, act, e);
      if e.motionId == motionId { PriorRows(cat, t, act, x); }
    }
  }

  /** Once a motion has anything beyond its proposal, no later transaction adds
      a row to it. */
  lemma {:induction false} DecisionsAreFinal(cat: Catalog, t: set<Row>, acts: seq<Action>, motionId: string)
    requires Accepted(cat) && Inv(cat, t) && Run(cat, t, acts)
    requires exists x :: x in MotionRows(t, motionId) && x.event != MotionProposed
    ensures MotionRows(After(t, acts), motionId) == MotionRows(t, motionId)
    decreases |acts|
  {
    if acts != [] {
      DecidedStep(cat, t, acts[0], motionId);
      InvStep(cat, t, acts[0]);
      DecisionsAreFinal(cat, t + NewRows(acts[0]), acts[1..], motionId);
    }
  }

  // ----- Which positions a transaction can move -----

  /** Proposals and rejections move no position; approvals and demotions touch
      no triple but their own. */
  lemma OtherTriplesUnmoved(t: set<Row>, act: Action, k: Triple)
    requires Enabled(t, act)
    requires act.Propose? || act.Reject? || k != TripleOf(act.p)
    ensures Latest(t + NewRows(act), k) == Latest(t, k)
    ensures forall d, scope :: TripleFor(d, scope) == k ==> Fold(t + NewRows(act), d, scope) == Fold(t, d, scope)
  {
    forall e | e in NewRows(act) ensures !IsChange(e, k) {
      NewRowsCopy(t, act, e);
    }
    assert Changes(t + NewRows(act), k) == Changes(t, k);
  }
}
