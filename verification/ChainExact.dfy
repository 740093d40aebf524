/** Exactly when the position changes of a scope form one path, with no
    assumption about the clock. */
module ChainExact {
  import opened Text
  import opened Events
  import opened Reads
  import opened Declarations
  import opened Lifecycle
  import opened Histories
  import opened Chain
  import opened Authority

  /** Change c sorts after the latest committed one of its scope. */
  ghost predicate Newest(t: set<Row>, c: Row)
  {
    Latest(t, TripleOf(c)).None? || Precedes(Latest(t, TripleOf(c)).value, c)
  }

  /** And it leaves the position in force there.  Both can be checked before c is
      committed. */
  ghost predicate Continues(t: set<Row>, d: Declaration, c: Row)
  {
    Newest(t, c) && c.fromPosition == Fold(t, d, c.scope)
  }

  /** The rows b add one change to the scope of c: c itself, along a declared edge. */
  ghost predicate AddsChange(cat: Catalog, t: set<Row>, b: set<Row>, c: Row)
  {
    && Table(t + b) && c in b && c !in t && c.event == PositionChanged && Governed(cat, c)
    && Changes(t + b, TripleOf(c)) == Changes(t, TripleOf(c)) + {c}
  }

  // ----- One change -----

  lemma TableSubset(t: set<Row>, s: set<Row>)
    requires Table(t) && s <= t
    ensures Table(s)
  {
  }

  /** What a row of the same scope sees before it, once c is there. */
  lemma RevisionAfter(t: set<Row>, b: set<Row>, c: Row, e: Row)
    requires c.event == PositionChanged && TripleOf(e) == TripleOf(c)
    requires Changes(t + b, TripleOf(c)) == Changes(t, TripleOf(c)) + {c}
    ensures !Precedes(c, e) ==> RevisionAt(t + b, e) == RevisionAt(t, e)
    ensures Precedes(c, e) ==>
              ChangesBefore(t + b, TripleOf(e), e.createdAt, e.id) ==
              ChangesBefore(t, TripleOf(e), e.createdAt, e.id) + {c}
  {
    var k, t' := TripleOf(e), t + b;
    forall x ensures x in t' && IsChange(x, k) <==> (x in t && IsChange(x, k)) || x == c {
      assert x in Changes(t', k) <==> x in Changes(t, k) || x == c;
    }
    if !Precedes(c, e) {
      assert ChangesBefore(t', k, e.createdAt, e.id) == ChangesBefore(t, k, e.createdAt, e.id);
    } else {
      assert ChangesBefore(t', k, e.createdAt, e.id) == ChangesBefore(t, k, e.createdAt, e.id) + {c};
    }
  }

  lemma {:induction false} LeastExists(s: set<Row>) returns (e: Row)
    requires s != {}
    requires forall a, b :: a in s && b in s && a != b ==> a.id != b.id
    ensures e in s && forall x :: x in s && x != e ==> Precedes(e, x)
    decreases |s|
  {
    var l := ListingExists(s);
    EmptyListing(l, s);
    e := l[0];
    assert e in l;
    forall x | x in s && x != e ensures Precedes(e, x) {
      assert x in l;
      var i :| 0 <= i < |l| && l[i] == x;
    }
  }

  /** Every committed change of the scope sorts before c, or some sorts after it. */
  lemma NewestOrNot(cat: Catalog, t: set<Row>, b: set<Row>, c: Row)
    requires AddsChange(cat, t, b, c)
    ensures Newest(t, c) <==> forall x :: x in Changes(t, TripleOf(c)) ==> Precedes(x, c)
    ensures (exists x :: x in Changes(t, TripleOf(c)) && Precedes(c, x)) <==>
              !forall x :: x in Changes(t, TripleOf(c)) ==> Precedes(x, c)
  {
    var k := TripleOf(c);
    TableSubset(t + b, t);
    LatestIsGreatest(t, k);
    forall x | x in Changes(t, k) ensures Precedes(x, c) <==> !Precedes(c, x) {
      assert !Clash(x, c);
      PrecedesTotal(x, c);
      if Precedes(x, c) { PrecedesAsymmetric(x, c); }
    }
    if Latest(t, k).Some? && Precedes(Latest(t, k).value, c) {
      forall x | x in Changes(t, k) ensures Precedes(x, c) {
        if x != Latest(t, k).value { PrecedesTransitive(x, Latest(t, k).value, c); }
      }
    }
  }

  /** A newest change is truthful exactly when it leaves the position in force. */
  lemma NewestTruthfulIff(cat: Catalog, t: set<Row>, b: set<Row>, c: Row)
    requires AddsChange(cat, t, b, c)
    requires forall x :: x in Changes(t, TripleOf(c)) ==> Precedes(x, c)
    ensures Accepted(cat) ==>
              (Truthful(cat, t + b, c) <==> c.fromPosition == Fold(t, DeclarationOf(cat, c), c.scope))
  {
    PrecedesIrreflexive(c);
    RevisionAfter(t, b, c, c);
    assert ChangesBefore(t, TripleOf(c), c.createdAt, c.id) == Changes(t, TripleOf(c));
  }

  lemma OlderStaysTruthful(cat: Catalog, t: set<Row>, b: set<Row>, c: Row, e: Row)
    requires AddsChange(cat, t, b, c) && ScopeTruthful(cat, t, TripleOf(c))
    requires forall x :: x in Changes(t, TripleOf(c)) ==> Precedes(x, c)
    requires e in t + b && IsChange(e, TripleOf(c)) && e != c
    ensures Truthful(cat, t + b, e)
  {
    assert e in Changes(t + b, TripleOf(c));
    assert e in Changes(t, TripleOf(c)) && Truthful(cat, t, e);
    PrecedesAsymmetric(e, c);
    RevisionAfter(t, b, c, e);
  }

  /** c and the first change after it see the same earlier changes. */
  lemma NothingBetween(t: set<Row>, k: Triple, c: Row, e: Row)
    requires Table(t + {c}) && c !in t && IsChange(c, k)
    requires e in Changes(t, k) && Precedes(c, e)
    requires forall x :: x in Changes(t, k) && Precedes(c, x) && x != e ==> Precedes(e, x)
    ensures ChangesBefore(t, k, e.createdAt, e.id) == ChangesBefore(t, k, c.createdAt, c.id)
  {
    forall x | x in Changes(t, k) ensures Precedes(x, e) <==> Precedes(x, c) {
      assert !Clash(x, c);
      PrecedesTotal(x, c);
      if Precedes(x, c) {
        PrecedesTransitive(x, c, e);
      } else {
        PrecedesAsymmetric(c, x);
        if x == e { PrecedesIrreflexive(e); } else { PrecedesAsymmetric(e, x); }
      }
    }
    forall x ensures x in ChangesBefore(t, k, e.createdAt, e.id) <==> x in ChangesBefore(t, k, c.createdAt, c.id) {
      assert x in t && IsChange(x, k) <==> x in Changes(t, k);
    }
  }

  /** A change put before a committed one: the next change no longer starts where
      the one before it ends. */
  lemma BackdatedBreaks(cat: Catalog, t: set<Row>, b: set<Row>, c: Row)
    requires Accepted(cat) && AddsChange(cat, t, b, c) && ScopeTruthful(cat, t, TripleOf(c))
    requires exists x :: x in Changes(t, TripleOf(c)) && Precedes(c, x)
    ensures !ScopeTruthful(cat, t + b, TripleOf(c))
  {
    var t', k := t + b, TripleOf(c);
    TableSubset(t', t);
    TableSubset(t', t + {c});
    var later := set x | x in Changes(t, k) && Precedes(c, x);
    DistinctIds(t, later);
    var e := LeastExists(later);
    NothingBetween(t, k, c, e);
    RevisionAfter(t, b, c, e);
    RevisionAfter(t, b, c, c);
    PrecedesIrreflexive(c);
    AddedLast(ChangesBefore(t, k, c.createdAt, c.id), c);
    assert RevisionAt(t', e) == Some(c) && RevisionAt(t', c) == RevisionAt(t, e);
    assert e in Changes(t', k) && Truthful(cat, t, e);
    if ScopeTruthful(cat, t', k) {
      assert Truthful(cat, t', c) && Truthful(cat, t', e);
      CannotBothHold(cat, t, t', c, e);
    }
  }

  lemma CannotBothHold(cat: Catalog, t: set<Row>, t': set<Row>, c: Row, e: Row)
    requires Accepted(cat) && Governed(cat, c) && TripleOf(c) == TripleOf(e)
    requires RevisionAt(t', e) == Some(c) && RevisionAt(t', c) == RevisionAt(t, e)
    requires Truthful(cat, t, e)
    ensures !(Truthful(cat, t', c) && Truthful(cat, t', e))
  {
    assert Sound(DeclarationOf(cat, c));
  }

  /** Rows that add one change keep their scope's chain if and only if the change
      is its newest and leaves the position in force. */
  lemma ChangeKeepsChainIff(cat: Catalog, t: set<Row>, b: set<Row>, c: Row)
    requires Accepted(cat) && AddsChange(cat, t, b, c) && ScopeTruthful(cat, t, TripleOf(c))
    ensures ScopeTruthful(cat, t + b, TripleOf(c)) <==> Continues(t, DeclarationOf(cat, c), c)
  {
    var t', k := t + b, TripleOf(c);
    NewestOrNot(cat, t, b, c);
    if forall x :: x in Changes(t, k) ==> Precedes(x, c) {
      NewestTruthfulIff(cat, t, b, c);
      assert c in t' && IsChange(c, k);
      forall e | e in t' && IsChange(e, k) && e != c ensures Truthful(cat, t', e) {
        OlderStaysTruthful(cat, t, b, c, e);
      }
    } else {
      BackdatedBreaks(cat, t, b, c);
    }
  }

  // ----- One transaction -----

  ghost predicate Guarded(t: set<Row>, act: Action, k: Triple)
  {
    Executes(act, k) ==> Continues(t, act.d, act.c)
  }

  lemma ExecutionAddsChange(cat: Catalog, t: set<Row>, act: Action)
    requires Accepted(cat) && Inv(cat, t) && Step(cat, t, act) && Executes(act, TripleOf(act.p))
    ensures AddsChange(cat, t, NewRows(act), act.c) && TripleOf(act.c) == TripleOf(act.p)
    ensures DeclarationOf(cat, act.c) == act.d
  {
    ChangesAfter(t, act);
    ProposalGoverned(cat, t, act);
    assert act.c in NewRows(act);
  }

  lemma OtherScopesKept(cat: Catalog, t: set<Row>, act: Action, k: Triple)
    requires Enabled(t, act) && !Executes(act, k)
    ensures ScopeTruthful(cat, t + NewRows(act), k) <==> ScopeTruthful(cat, t, k)
  {
    var t' := t + NewRows(act);
    forall e | e in NewRows(act) ensures !IsChange(e, k) {
      NewRowsCopy(t, act, e);
    }
    forall e | IsChange(e, k) ensures RevisionAt(t', e) == RevisionAt(t, e) && (e in t' <==> e in t) {
      assert ChangesBefore(t', k, e.createdAt, e.id) == ChangesBefore(t, k, e.createdAt, e.id);
    }
    forall e | IsChange(e, k) ensures Truthful(cat, t', e) <==> Truthful(cat, t, e) {
    }
  }

  /** From a scope whose chain is whole, one transaction of any kind keeps it
      whole if and only if, in case it moves that scope, the change it writes is
      the newest there and leaves the position in force. */
  lemma ChainKeptIff(cat: Catalog, t: set<Row>, act: Action, k: Triple)
    requires Accepted(cat) && Inv(cat, t) && Step(cat, t, act) && ScopeTruthful(cat, t, k)
    ensures ScopeTruthful(cat, t + NewRows(act), k) <==> Guarded(t, act, k)
  {
    if Executes(act, k) {
      ExecutionAddsChange(cat, t, act);
      ChangeKeepsChainIff(cat, t, NewRows(act), act.c);
    } else {
      OtherScopesKept(cat, t, act, k);
    }
  }

  // ----- What one execution does -----

  /** The execution takes its scope from the recorded source to the recorded target. */
  ghost predicate TakesEffect(t: set<Row>, act: Action)
    requires act.Approve? || act.Demote?
  {
    && Fold(t, act.d, act.p.scope) == act.p.fromPosition
    && Fold(t + NewRows(act), act.d, act.p.scope) == act.p.toPosition
  }

  /** The newest change becomes the latest; any other leaves the latest as it was. */
  lemma LatestAfter(cat: Catalog, t: set<Row>, act: Action)
    requires Accepted(cat) && Inv(cat, t) && Step(cat, t, act) && Executes(act, TripleOf(act.p))
    ensures Latest(t + NewRows(act), TripleOf(act.p)) ==
              if Newest(t, act.c) then Some(act.c) else Latest(t, TripleOf(act.p))
    ensures act.c !in t && TripleOf(act.c) == TripleOf(act.p)
  {
    var k, all := TripleOf(act.p), Changes(t, TripleOf(act.p));
    ExecutionAddsChange(cat, t, act);
    NewestOrNot(cat, t, NewRows(act), act.c);
    LatestIsGreatest(t, k);
    if Newest(t, act.c) {
      AddedLast(all, act.c);
    } else {
      DistinctInTable(t + NewRows(act), Latest(t, k).value, act.c);
      PrecedesTotal(Latest(t, k).value, act.c);
      LastStays(all, Latest(t, k).value, act.c);
    }
  }

  lemma DistinctInTable(t: set<Row>, a: Row, b: Row)
    requires Table(t) && a in t && b in t && a != b
    ensures a.id != b.id
  {
    assert !Clash(a, b);
  }

  lemma LastStays(s: set<Row>, last: Row, c: Row)
    requires Greatest(s, last) && Precedes(c, last)
    ensures Last(s + {c}) == Some(last)
  {
    assert Greatest(s + {c}, last);
    LastIs(s + {c}, last);
  }

  /** With no clock assumption: an execution becomes the latest change of its scope
      if and only if its change is the newest there, and otherwise moves nothing,
      so that the scope ends at its target only if it was there already; it takes
      its scope from source to target if and only if it meets the guard.
      A demotion always starts where the scope is, so for it the newest change is
      all it takes. */
  lemma ExecutionMovesIff(cat: Catalog, t: set<Row>, act: Action)
    requires Accepted(cat) && Inv(cat, t) && Step(cat, t, act) && Executes(act, TripleOf(act.p))
    ensures Latest(t + NewRows(act), TripleOf(act.p)) == Some(act.c) <==> Newest(t, act.c)
    ensures Fold(t + NewRows(act), act.d, act.p.scope) ==
              if Newest(t, act.c) then act.p.toPosition else Fold(t, act.d, act.p.scope)
    ensures Fold(t + NewRows(act), act.d, act.p.scope) == act.p.toPosition <==>
              Newest(t, act.c) || Fold(t, act.d, act.p.scope) == act.p.toPosition
    ensures TakesEffect(t, act) <==> Continues(t, act.d, act.c)
    ensures act.Demote? ==>
              (Fold(t + NewRows(act), act.d, act.p.scope) == act.p.toPosition <==> Newest(t, act.c))
  {
    LatestAfter(cat, t, act);
    ExecutionAddsChange(cat, t, act);
    LatestIsGreatest(t, TripleOf(act.p));
    EdgeMoves(cat, act.c);
  }

  lemma EdgeMoves(cat: Catalog, c: Row)
    requires Accepted(cat) && Governed(cat, c)
    ensures c.fromPosition != c.toPosition
  {
  }

  /** Under H1 every execution takes effect. */
  lemma ExecutionMovesTo(cat: Catalog, t: set<Row>, act: Action)
    requires Accepted(cat) && Chained(cat, t)
    requires Step(cat, t, act) && SortsAfter(t, NewRows(act)) && Executes(act, TripleOf(act.p))
    ensures Fold(t, act.d, act.p.scope) == act.p.fromPosition
    ensures Fold(t + NewRows(act), act.d, act.p.scope) == act.p.toPosition
  {
    ExecutedFromFold(cat, t, act);
    LatestIsGreatest(t, TripleOf(act.p));
    assert act.c in NewRows(act);
    ExecutionMovesIff(cat, t, act);
  }

  // ----- Whole runs -----

  /** The changes of the scope, in (created_at, id) order, form one path. */
  ghost predicate OnePath(t: set<Row>, d: Declaration, scope: Option<string>)
  {
    forall s :: Lists(s, Changes(t, TripleFor(d, scope))) ==> Path(s, d.initialPosition)
  }

  /** They do in t and in every later state of the run. */
  ghost predicate OnePathAlong(t: set<Row>, acts: seq<Action>, d: Declaration, scope: Option<string>)
    decreases |acts|
  {
    OnePath(t, d, scope) && (acts == [] || OnePathAlong(t + NewRows(acts[0]), acts[1..], d, scope))
  }

  /** Every execution on scope k met the guard in the state it ran in. */
  ghost predicate GuardedAlong(t: set<Row>, acts: seq<Action>, k: Triple)
    decreases |acts|
  {
    acts == [] || (Guarded(t, acts[0], k) && GuardedAlong(t + NewRows(acts[0]), acts[1..], k))
  }

  lemma OnePathIff(cat: Catalog, t: set<Row>, d: Declaration, scope: Option<string>)
    requires Table(t) && Declares(cat, d)
    ensures OnePath(t, d, scope) <==> ScopeTruthful(cat, t, TripleFor(d, scope))
  {
    var k := TripleFor(d, scope);
    DistinctIds(t, Changes(t, k));
    var s := ListingExists(Changes(t, k));
    if OnePath(t, d, scope) {
      forall c | c in t && IsChange(c, k) ensures Truthful(cat, t, c) {
        assert c in Changes(t, k) && c in s;
        var i :| 0 <= i < |s| && s[i] == c;
        RevisionInListing(t, k, s, i);
      }
    }
    if ScopeTruthful(cat, t, k) {
      forall u | Lists(u, Changes(t, k)) ensures Path(u, d.initialPosition) {
        PathOfTruth(cat, t, d, scope, u);
      }
    }
  }

  lemma {:induction false} OnePathAlongIff(cat: Catalog, t: set<Row>, acts: seq<Action>, d: Declaration,
                                           scope: Option<string>)
    requires Accepted(cat) && Inv(cat, t) && Run(cat, t, acts) && Declares(cat, d) && OnePath(t, d, scope)
    ensures OnePathAlong(t, acts, d, scope) <==> GuardedAlong(t, acts, TripleFor(d, scope))
    decreases |acts|
  {
    if acts != [] {
      var t', k := t + NewRows(acts[0]), TripleFor(d, scope);
      InvStep(cat, t, acts[0]);
      OnePathIff(cat, t, d, scope);
      OnePathIff(cat, t', d, scope);
      ChainKeptIff(cat, t, acts[0], k);
      if OnePath(t', d, scope) { OnePathAlongIff(cat, t', acts[1..], d, scope); }
    }
  }

  /** In every history, whatever its clock, the changes of an exact scope form one
      path at every moment if and only if every execution there wrote a change
      newer than all others of the scope, from the position then in force. */
  lemma ChainIntegrityIff(cat: Catalog, acts: seq<Action>, d: Declaration, scope: Option<string>)
    requires History(cat, acts) && Declares(cat, d)
    ensures OnePathAlong({}, acts, d, scope) <==> GuardedAlong({}, acts, TripleFor(d, scope))
  {
    OnePathIff(cat, {}, d, scope);
    OnePathAlongIff(cat, {}, acts, d, scope);
  }

  /** Every execution on scope k took effect when it committed. */
  ghost predicate EffectiveAlong(t: set<Row>, acts: seq<Action>, k: Triple)
    decreases |acts|
  {
    acts == [] ||
    ((Executes(acts[0], k) ==> TakesEffect(t, acts[0])) && EffectiveAlong(t + NewRows(acts[0]), acts[1..], k))
  }

  /** In every run, whatever its clock, every execution on a scope takes effect if
      and only if each meets the guard: the same runs in which the changes there
      form one path at every moment. */
  lemma {:induction false} EffectiveIff(cat: Catalog, t: set<Row>, acts: seq<Action>, k: Triple)
    requires Accepted(cat) && Inv(cat, t) && Run(cat, t, acts)
    ensures EffectiveAlong(t, acts, k) <==> GuardedAlong(t, acts, k)
    decreases |acts|
  {
    if acts != [] {
      if Executes(acts[0], k) { ExecutionMovesIff(cat, t, acts[0]); }
      InvStep(cat, t, acts[0]);
      EffectiveIff(cat, t + NewRows(acts[0]), acts[1..], k);
    }
  }

  /** Two-edge conservation in t and in every later state of the run. */
  ghost predicate ConservedAlong(t: set<Row>, acts: seq<Action>, d: Declaration, scope: Option<string>)
    decreases |acts|
  {
    Conserved(t, d, scope) && (acts == [] || ConservedAlong(t + NewRows(acts[0]), acts[1..], d, scope))
  }

  ghost predicate Conserved(t: set<Row>, d: Declaration, scope: Option<string>)
  {
    forall s :: Lists(s, Changes(t, TripleFor(d, scope))) ==> Alternates(d, s) && Balanced(t, d, scope, s)
  }

  lemma ConservedIffPath(cat: Catalog, t: set<Row>, d: Declaration, scope: Option<string>)
    requires Accepted(cat) && Rooted(cat, t) && Declares(cat, d) && TwoEdged(d)
    ensures Conserved(t, d, scope) <==> OnePath(t, d, scope)
  {
    forall s | Lists(s, Changes(t, TripleFor(d, scope)))
      ensures Alternates(d, s) && Balanced(t, d, scope, s) <==> Path(s, d.initialPosition)
    {
      ChangesDeclared(cat, t, d, scope, s);
      PathIffAlternates(d, s);
      if Alternates(d, s) { AlternatesBalanced(t, d, scope, s); }
    }
  }

  lemma {:induction false} ConservedAlongIff(cat: Catalog, t: set<Row>, acts: seq<Action>, d: Declaration,
                                             scope: Option<string>)
    requires Accepted(cat) && Inv(cat, t) && Run(cat, t, acts) && Declares(cat, d) && TwoEdged(d)
    ensures ConservedAlong(t, acts, d, scope) <==> OnePathAlong(t, acts, d, scope)
    decreases |acts|
  {
    ConservedIffPath(cat, t, d, scope);
    if acts != [] {
      InvStep(cat, t, acts[0]);
      ConservedAlongIff(cat, t + NewRows(acts[0]), acts[1..], d, scope);
    }
  }

  /** When demotion undoes promotion, conservation holds at every moment of a run,
      whatever its clock, if and only if every execution there met the guard. */
  lemma ConservationIff(cat: Catalog, acts: seq<Action>, d: Declaration, scope: Option<string>)
    requires History(cat, acts) && Declares(cat, d) && TwoEdged(d)
    ensures ConservedAlong({}, acts, d, scope) <==> GuardedAlong({}, acts, TripleFor(d, scope))
  {
    ConservedAlongIff(cat, {}, acts, d, scope);
    ChainIntegrityIff(cat, acts, d, scope);
  }

  /** H1 is one way to meet the guard, on every scope at once. */
  lemma {:induction false} OrderlyIsGuarded(cat: Catalog, t: set<Row>, acts: seq<Action>, k: Triple)
    requires Accepted(cat) && Chained(cat, t) && Run(cat, t, acts) && Orderly(t, acts)
    ensures GuardedAlong(t, acts, k)
    decreases |acts|
  {
    if acts != [] {
      var act := acts[0];
      if Executes(act, k) {
        ExecutedFromFold(cat, t, act);
        LatestIsGreatest(t, k);
        assert act.c in NewRows(act);
      }
      ChainedStep(cat, t, act);
      OrderlyIsGuarded(cat, t + NewRows(act), acts[1..], k);
    }
  }
}
