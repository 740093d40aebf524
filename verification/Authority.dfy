/** The main results about authority in runs whose clock keeps H1. */
module Authority {
  import opened Text
  import opened Events
  import opened Reads
  import opened Declarations
  import opened Lifecycle
  import opened Histories
  import opened Chain

  /** A run from the empty store under H1. */
  ghost predicate OrderlyHistory(cat: Catalog, acts: seq<Action>)
  {
    History(cat, acts) && Orderly({}, acts)
  }

  ghost predicate Path(s: seq<Row>, initial: Position)
  {
    && (s != [] ==> s[0].fromPosition == initial)
    && forall i :: 0 < i < |s| ==> s[i].fromPosition == s[i - 1].toPosition
  }

  function EndOf(s: seq<Row>, initial: Position): Position
  {
    if s == [] then initial else s[|s| - 1].toPosition
  }

  // ----- Chain integrity -----

  lemma RevisionInListing(t: set<Row>, k: Triple, s: seq<Row>, i: nat)
    requires Lists(s, Changes(t, k)) && i < |s|
    ensures RevisionAt(t, s[i]) == if i == 0 then None else Some(s[i - 1])
  {
    var e := s[i];
    assert e in s;
    var earlier := ChangesBefore(t, k, e.createdAt, e.id);
    forall x | x in earlier ensures exists j :: 0 <= j < i && s[j] == x {
      assert x in Changes(t, k);
      var j :| 0 <= j < |s| && s[j] == x;
      if j == i { PrecedesIrreflexive(e); }
      if j > i { PrecedesAsymmetric(e, x); }
    }
    if i == 0 {
      assert earlier == {};
    } else {
      assert s[i - 1] in s && s[i - 1] in earlier;
      LastIs(earlier, s[i - 1]);
    }
  }

  lemma FoldIsEnd(t: set<Row>, d: Declaration, scope: Option<string>, s: seq<Row>)
    requires Lists(s, Changes(t, TripleFor(d, scope)))
    ensures Fold(t, d, scope) == EndOf(s, d.initialPosition)
  {
    var all := Changes(t, TripleFor(d, scope));
    EmptyListing(s, all);
    if s != [] {
      LastOfListing(s, all);
      LastIs(all, s[|s| - 1]);
    }
  }

  /** In every orderly run, the position changes of every exact scope, read in
      (created_at, id) order, form one path from the initial position, and the
      folded position is its end. */
  lemma ChainIntegrity(cat: Catalog, acts: seq<Action>, d: Declaration, scope: Option<string>, s: seq<Row>)
    requires OrderlyHistory(cat, acts) && Declares(cat, d)
    requires Lists(s, Changes(After({}, acts), TripleFor(d, scope)))
    ensures Path(s, d.initialPosition)
    ensures Fold(After({}, acts), d, scope) == EndOf(s, d.initialPosition)
  {
    ChainedRun(cat, {}, acts);
    PathOfTruth(cat, After({}, acts), d, scope, s);
  }

  lemma PathOfTruth(cat: Catalog, t: set<Row>, d: Declaration, scope: Option<string>, s: seq<Row>)
    requires ScopeTruthful(cat, t, TripleFor(d, scope)) && Declares(cat, d)
    requires Lists(s, Changes(t, TripleFor(d, scope)))
    ensures Path(s, d.initialPosition)
    ensures Fold(t, d, scope) == EndOf(s, d.initialPosition)
  {
    if s != [] { LinkAt(cat, t, d, scope, s, 0); }
    forall i | 0 < i < |s| ensures s[i].fromPosition == s[i - 1].toPosition {
      LinkAt(cat, t, d, scope, s, i);
    }
    FoldIsEnd(t, d, scope, s);
  }

  lemma LinkAt(cat: Catalog, t: set<Row>, d: Declaration, scope: Option<string>, s: seq<Row>, i: nat)
    requires ScopeTruthful(cat, t, TripleFor(d, scope)) && Declares(cat, d) && i < |s|
    requires Lists(s, Changes(t, TripleFor(d, scope)))
    ensures s[i].fromPosition == if i == 0 then d.initialPosition else s[i - 1].toPosition
  {
    assert s[i] in s && s[i] in Changes(t, TripleFor(d, scope));
    assert Truthful(cat, t, s[i]);
    RevisionInListing(t, TripleFor(d, scope), s, i);
  }

  /** An execution adds exactly one change, its own, to its own scope. */
  lemma ChangesAfter(t: set<Row>, act: Action)
    requires Enabled(t, act) && (act.Approve? || act.Demote?)
    ensures TripleOf(act.c) == TripleOf(act.p)
    ensures Changes(t + NewRows(act), TripleOf(act.p)) == Changes(t, TripleOf(act.p)) + {act.c}
  {
  }

  /** A change that sorts after all others of its scope is the latest one. */
  lemma AddedLast(s: set<Row>, c: Row)
    requires forall x :: x in s ==> Precedes(x, c)
    ensures Last(s + {c}) == Some(c)
  {
    assert Greatest(s + {c}, c);
    LastIs(s + {c}, c);
  }

  // ----- Exclusivity -----

  lemma {:induction false} LaterSortsAfter(t: set<Row>, acts: seq<Action>, x: Row, y: Row)
    requires Orderly(t, acts) && x in t && y in After(t, acts) && y !in t
    ensures Precedes(x, y)
    decreases |acts|
  {
    if acts != [] && y !in NewRows(acts[0]) {
      LaterSortsAfter(t + NewRows(acts[0]), acts[1..], x, y);
    }
  }

  lemma RevisionKeptRun(t: set<Row>, acts: seq<Action>, e: Row)
    requires Orderly(t, acts) && e in t
    ensures RevisionAt(After(t, acts), e) == RevisionAt(t, e)
  {
    var t' := After(t, acts);
    AppendOnly(t, acts);
    forall x, y | x in t && y in t' - t ensures Precedes(x, y) {
      LaterSortsAfter(t, acts, x, y);
    }
    RevisionKept(t, t' - t, e);
    assert t + (t' - t) == t';
  }

  /** Whatever is executed later is executed at the revision its open proposal was
      made at. */
  lemma ExecutedAtItsRevision(cat: Catalog, t: set<Row>, acts: seq<Action>, p: Row, c: Row)
    requires Accepted(cat) && Chained(cat, t) && Run(cat, t, acts) && Orderly(t, acts)
    requires Open(t, p) && c in After(t, acts) && Of(c, p.motionId, PositionChanged)
    ensures RevisionAt(After(t, acts), c) == RevisionAt(t, p)
    ensures TripleOf(c) == TripleOf(p)
  {
    var t' := After(t, acts);
    ChainedRun(cat, t, acts);
    AppendOnly(t, acts);
    if c in t { OpenHasNoSiblings(t, p, c); }
    LaterSortsAfter(t, acts, p, c);
    PrecedesAsymmetric(p, c);
    RevisionKeptRun(t, acts, p);
    OneIdentity(cat, t', c, p);
    assert Fresh(t', c);
    LatestBeforeIsGreatest(t', TripleOf(p), p.createdAt, p.id);
  }

  /** Of all proposals open on one exact scope, at most one is ever executed by
      transactions that keep H1. */
  lemma AtMostOneExecutes(cat: Catalog, past: seq<Action>, future: seq<Action>, p: Row, q: Row)
    requires History(cat, past)
    requires Run(cat, After({}, past), future) && Orderly(After({}, past), future)
    requires Open(After({}, past), p) && Open(After({}, past), q) && p != q && TripleOf(p) == TripleOf(q)
    ensures !(Has(After(After({}, past), future), p.motionId, PositionChanged) &&
              Has(After(After({}, past), future), q.motionId, PositionChanged))
  {
    var t := After({}, past);
    var t' := After(t, future);
    InvRun(cat, {}, past);
    OpenHasNoChange(t, p);
    OpenHasNoChange(t, q);
    if Has(t', p.motionId, PositionChanged) && Has(t', q.motionId, PositionChanged) {
      var c :| c in t' && Of(c, p.motionId, PositionChanged);
      var e :| e in t' && Of(e, q.motionId, PositionChanged);
      BothExecutedOnlyIf(cat, t, future, p, q, c, e);
      LaterSortsAfter(t, future, q, c);
      LaterSortsAfter(t, future, p, e);
      if Precedes(c, q) { PrecedesAsymmetric(c, q); } else { PrecedesAsymmetric(e, p); }
    }
  }

  lemma OpenHasNoChange(t: set<Row>, p: Row)
    requires Open(t, p)
    ensures !Has(t, p.motionId, PositionChanged)
  {
    if c :| c in t && Of(c, p.motionId, PositionChanged) { OpenHasNoSiblings(t, p, c); }
  }

  // ----- Two-edge conservation -----

  /** Demotion undoes promotion, and authority starts where promotion starts. */
  predicate TwoEdged(d: Declaration)
  {
    && d.demotion == Edge(d.promotion.toPosition, d.promotion.fromPosition)
    && d.initialPosition == d.promotion.fromPosition
  }

  function Count(s: seq<Row>, edge: Edge): nat
  {
    if s == [] then 0
    else Count(s[..|s| - 1], edge) + if Edge(s[|s| - 1].fromPosition, s[|s| - 1].toPosition) == edge then 1 else 0
  }

  /** Executed promotions and demotions alternate, a promotion first. */
  predicate Alternates(d: Declaration, s: seq<Row>)
  {
    forall i :: 0 <= i < |s| ==>
      Edge(s[i].fromPosition, s[i].toPosition) == if i % 2 == 0 then d.promotion else d.demotion
  }

  predicate DeclaredEdges(d: Declaration, s: seq<Row>)
  {
    forall i :: 0 <= i < |s| ==> DeclaredTransition(d, s[i].fromPosition, s[i].toPosition)
  }

  lemma {:induction false} AlternatesCounts(d: Declaration, s: seq<Row>)
    requires TwoEdged(d) && d.promotion.fromPosition != d.promotion.toPosition && Alternates(d, s)
    ensures EndOf(s, d.initialPosition) == if |s| % 2 == 0 then d.promotion.fromPosition else d.promotion.toPosition
    ensures Count(s, d.promotion) - Count(s, d.demotion) == |s| % 2
  {
    if s != [] { AlternatesCounts(d, s[..|s| - 1]); }
  }

  lemma {:induction false} PathAlternates(d: Declaration, s: seq<Row>)
    requires TwoEdged(d) && d.promotion.fromPosition != d.promotion.toPosition
    requires DeclaredEdges(d, s) && Path(s, d.initialPosition)
    ensures Alternates(d, s)
  {
    if s != [] {
      var n := |s| - 1;
      PathAlternates(d, s[..n]);
      AlternatesCounts(d, s[..n]);
      assert s[n].fromPosition == EndOf(s[..n], d.initialPosition);
    }
  }

  /** Changes along declared edges form a path if and only if they alternate. */
  lemma PathIffAlternates(d: Declaration, s: seq<Row>)
    requires TwoEdged(d) && d.promotion.fromPosition != d.promotion.toPosition && DeclaredEdges(d, s)
    ensures Path(s, d.initialPosition) <==> Alternates(d, s)
  {
    if Path(s, d.initialPosition) { PathAlternates(d, s); }
  }

  lemma ChangesDeclared(cat: Catalog, t: set<Row>, d: Declaration, scope: Option<string>, s: seq<Row>)
    requires Accepted(cat) && Rooted(cat, t) && Declares(cat, d) && Lists(s, Changes(t, TripleFor(d, scope)))
    ensures DeclaredEdges(d, s) && d.promotion.fromPosition != d.promotion.toPosition
  {
    forall i | 0 <= i < |s| ensures DeclaredTransition(d, s[i].fromPosition, s[i].toPosition) {
      assert s[i] in s && s[i] in Changes(t, TripleFor(d, scope));
      assert Governed(cat, s[i]);
    }
    assert Sound(d);
  }

  /** Executed promotions and demotions differ by one, and exactly at the promoted
      position, else not at all. */
  ghost predicate Balanced(t: set<Row>, d: Declaration, scope: Option<string>, s: seq<Row>)
  {
    Count(s, d.promotion) - Count(s, d.demotion) == if Fold(t, d, scope) == d.promotion.toPosition then 1 else 0
  }

  lemma AlternatesBalanced(t: set<Row>, d: Declaration, scope: Option<string>, s: seq<Row>)
    requires TwoEdged(d) && d.promotion.fromPosition != d.promotion.toPosition && Alternates(d, s)
    requires Lists(s, Changes(t, TripleFor(d, scope)))
    ensures Balanced(t, d, scope, s)
  {
    AlternatesCounts(d, s);
    FoldIsEnd(t, d, scope, s);
  }

  /** On one exact scope, executed promotions and demotions strictly alternate,
      their difference is 0 or 1, and it is 1 exactly at the promoted position. */
  lemma TwoEdgeConservation(cat: Catalog, acts: seq<Action>, d: Declaration, scope: Option<string>, s: seq<Row>)
    requires OrderlyHistory(cat, acts) && Declares(cat, d) && TwoEdged(d)
    requires Lists(s, Changes(After({}, acts), TripleFor(d, scope)))
    ensures Alternates(d, s) && Balanced(After({}, acts), d, scope, s)
  {
    InvRun(cat, {}, acts);
    ChainIntegrity(cat, acts, d, scope, s);
    ChangesDeclared(cat, After({}, acts), d, scope, s);
    PathIffAlternates(d, s);
    AlternatesBalanced(After({}, acts), d, scope, s);
  }
}
