/** Why first-match lookup is not arbitrary once a declaration has been accepted. */
module Placements {
  import opened Text
  import opened Events
  import opened Declarations

  // ----- Acceptance and lookup, on the fields -----

  /** The override's selector describes the evaluator: property and technique, and
      the version where it gives one. */
  ghost predicate Describes(o: Override, e: Evaluator)
  {
    && o.selector.property == e.property && o.selector.technique == e.technique
    && (o.selector.version == None || o.selector.version == Some(e.version))
  }

  ghost predicate DescribesOnly(es: seq<Evaluator>, o: Override, k: nat)
  {
    k < |es| && Describes(o, es[k]) && forall l :: 0 <= l < |es| && l != k ==> !Describes(o, es[l])
  }

  /** Each override describes one declared evaluator, no two the same one, and each
      changes its mode. */
  ghost predicate OverridesOk(es: seq<Evaluator>, pl: Placement)
  {
    && (forall o :: o in pl.overrides ==> o.placement != pl.default && exists k: nat :: DescribesOnly(es, o, k))
    && (forall i, j, e :: 0 <= i < j < |pl.overrides| && e in es ==>
          !(Describes(pl.overrides[i], e) && Describes(pl.overrides[j], e)))
  }

  lemma PlacementIff(d: Declaration, pl: Placement)
    ensures SoundPlacement(d, pl) <==> OverridesOk(d.evaluators, pl)
  {
    var os, es := pl.overrides, d.evaluators;
    forall o, k: nat ensures PicksOnly(d, o, k) <==> DescribesOnly(es, o, k) { }
    forall o | o in os ensures PicksOne(d, o) <==> exists k: nat :: DescribesOnly(es, o, k) {
      if k: nat :| DescribesOnly(es, o, k) { assert PicksOnly(d, o, k); }
      if k: nat :| PicksOnly(d, o, k) { assert DescribesOnly(es, o, k); }
    }
    if SoundPlacement(d, pl) {
      forall o | o in os ensures o.placement != pl.default && PicksOne(d, o) {
        var i: nat :| i < |os| && os[i] == o;
      }
      forall i: nat, j: nat, e | i < j < |os| && e in es ensures !(Describes(os[i], e) && Describes(os[j], e)) {
        if Describes(os[i], e) && Describes(os[j], e) { AtMostOneMatches(d, pl, e, i, j); }
      }
    }
    if OverridesOk(es, pl) {
      assert forall k: nat :: k < |es| ==> es[k] in es;
      forall i: nat | i < |os| ensures PicksOne(d, os[i]) && os[i].placement != pl.default { assert os[i] in os; }
      forall i: nat, j: nat | i < j < |os| ensures !SameClaim(d, os, i, j) {
      }
    }
  }

  /** A declaration is accepted if and only if its initial position and the ends of
      both edges are declared, the edges move, and its overrides are as above. */
  lemma AcceptedIff(d: Declaration)
    ensures Sound(d) <==>
              && {d.initialPosition, d.promotion.fromPosition, d.promotion.toPosition,
                  d.demotion.fromPosition, d.demotion.toPosition} <= d.policy.Keys
              && d.promotion.fromPosition != d.promotion.toPosition && d.demotion.fromPosition != d.demotion.toPosition
              && forall p :: p in d.policy ==> OverridesOk(d.evaluators, d.policy[p])
  {
    forall p | p in d.policy ensures SoundPlacement(d, d.policy[p]) <==> OverridesOk(d.evaluators, d.policy[p]) {
      PlacementIff(d, d.policy[p]);
    }
  }

  /** At a position of an accepted declaration an evaluator runs in a mode other
      than the default if and only if some override of that mode describes it. */
  lemma ForEvaluatorIff(d: Declaration, p: Position, e: Evaluator, m: Mode)
    requires Sound(d) && p in d.policy && m != d.policy[p].default
    ensures d.policy[p].ForEvaluator(e) == m <==>
              exists o :: o in d.policy[p].overrides && o.placement == m && Describes(o, e)
  {
    var pl := d.policy[p];
    FirstMatchIs(pl.overrides, e, pl.default);
    forall o, u | o in pl.overrides && u in pl.overrides && Describes(o, e) && Describes(u, e) ensures o == u {
      OneDescribes(d, pl, e, o, u);
    }
  }

  lemma OneDescribes(d: Declaration, pl: Placement, e: Evaluator, o: Override, u: Override)
    requires SoundPlacement(d, pl) && o in pl.overrides && u in pl.overrides && Describes(o, e) && Describes(u, e)
    ensures o == u
  {
    var i: nat :| i < |pl.overrides| && pl.overrides[i] == o;
    var j: nat :| j < |pl.overrides| && pl.overrides[j] == u;
    AtMostOneMatches(d, pl, e, i, j);
  }

  /** The override at index i keeps the rules against those before it. */
  ghost predicate Fine(es: seq<Evaluator>, pl: Placement, i: nat)
    requires i < |pl.overrides|
  {
    pl.overrides[i].placement != pl.default && Unclaimed(es, pl, i)
  }

  /** It describes one declared evaluator, which no override before it does. */
  ghost predicate Unclaimed(es: seq<Evaluator>, pl: Placement, i: nat)
    requires i < |pl.overrides|
  {
    exists k: nat :: DescribesOnly(es, pl.overrides[i], k) &&
                     forall j :: 0 <= j < i ==> !DescribesOnly(es, pl.overrides[j], k)
  }

  /** What the override at index i is reported for. */
  ghost predicate ReportedFor(es: seq<Evaluator>, pl: Placement, i: nat, code: Code)
    requires i < |pl.overrides|
  {
    var os := pl.overrides;
    match code
    case MatchesNoEvaluator => forall e :: e in es ==> !Describes(os[i], e)
    case Ambiguous => exists k, l :: 0 <= k < l < |es| && Describes(os[i], es[k]) && Describes(os[i], es[l])
    case DuplicateOf(j) =>
      && j < i
      && exists k: nat :: DescribesOnly(es, os[j], k) && DescribesOnly(es, os[i], k) &&
                          forall l :: 0 <= l < j ==> !DescribesOnly(es, os[l], k)
    case Redundant => os[i].placement == pl.default && Unclaimed(es, pl, i)
    case _ => false
  }

  lemma SamePicks(d: Declaration, o: Override, k: nat)
    ensures PicksOnly(d, o, k) <==> DescribesOnly(d.evaluators, o, k)
  {
  }

  lemma ReportMeans(d: Declaration, pl: Placement, i: nat, code: Code)
    requires i < |pl.overrides| && OverrideBreaks(d, pl, i, code)
    ensures ReportedFor(d.evaluators, pl, i, code) && !Fine(d.evaluators, pl, i)
  {
    forall o, k: nat ensures PicksOnly(d, o, k) <==> DescribesOnly(d.evaluators, o, k) { SamePicks(d, o, k); }
    var os, es := pl.overrides, d.evaluators;
    assert forall k: nat :: k < |es| ==> es[k] in es;
    if code.DuplicateOf? {
      var k: nat :| PicksOnly(d, os[code.claimant], k) && PicksOnly(d, os[i], k);
      assert DescribesOnly(es, os[code.claimant], k) && DescribesOnly(es, os[i], k);
      forall l: nat | l < code.claimant ensures !DescribesOnly(es, os[l], k) { assert !SameClaim(d, os, l, i); }
    } else if code == Redundant {
      var k: nat :| PicksOnly(d, os[i], k);
      forall l: nat | l < i ensures !DescribesOnly(es, os[l], k) { assert !SameClaim(d, os, l, i); }
      assert DescribesOnly(es, os[i], k);
    }
  }

  lemma UnbrokenIsFine(d: Declaration, pl: Placement, i: nat)
    requires i < |pl.overrides| && forall code :: !OverrideBreaks(d, pl, i, code)
    ensures Fine(d.evaluators, pl, i)
  {
    var os, es := pl.overrides, d.evaluators;
    forall o, k: nat ensures PicksOnly(d, o, k) <==> DescribesOnly(es, o, k) { SamePicks(d, o, k); }
    assert !OverrideBreaks(d, pl, i, MatchesNoEvaluator) && !OverrideBreaks(d, pl, i, Ambiguous);
    var e :| e in es && os[i].selector.Matches(e);
    var k: nat :| k < |es| && es[k] == e;
    assert PicksOnly(d, os[i], k);
    forall j: nat | j < i ensures !SameClaim(d, os, j, i) {
      if SameClaim(d, os, j, i) { FirstClaim(d, pl, i, j); }
    }
    forall j: nat | j < i ensures !DescribesOnly(es, os[j], k) { assert !SameClaim(d, os, j, i); }
    assert DescribesOnly(es, os[i], k) && PicksOne(d, os[i]);
    assert !OverrideBreaks(d, pl, i, Redundant);
  }

  lemma FirstClaim(d: Declaration, pl: Placement, i: nat, j: nat)
    requires j < i < |pl.overrides| && SameClaim(d, pl.overrides, j, i)
    ensures exists code :: OverrideBreaks(d, pl, i, code)
    decreases j
  {
    if l: nat :| l < j && SameClaim(d, pl.overrides, l, i) {
      FirstClaim(d, pl, i, l);
    } else {
      assert OverrideBreaks(d, pl, i, DuplicateOf(j));
    }
  }

  /** The first rule about positions a declaration breaks, as they are checked. */
  function FirstPositionBreak(d: Declaration): Option<Break>
  {
    if d.initialPosition !in d.policy then Some(Break(Field(0), InitialNotInPolicy))
    else if d.promotion.fromPosition == d.promotion.toPosition then Some(Break(Field(1), SamePosition))
    else if d.promotion.fromPosition !in d.policy then Some(Break(Field(2), PositionNotInPolicy))
    else if d.promotion.toPosition !in d.policy then Some(Break(Field(3), PositionNotInPolicy))
    else if d.demotion.fromPosition == d.demotion.toPosition then Some(Break(Field(4), SamePosition))
    else if d.demotion.fromPosition !in d.policy then Some(Break(Field(5), PositionNotInPolicy))
    else if d.demotion.toPosition !in d.policy then Some(Break(Field(6), PositionNotInPolicy))
    else None
  }

  ghost predicate AllFine(d: Declaration, p: Position, n: nat)
    requires p in d.policy && n <= |d.policy[p].overrides|
  {
    forall i: nat :: i < n ==> Fine(d.evaluators, d.policy[p], i)
  }

  /** What is reported first: a rule about positions before any override, then the
      overrides of `autonomous`, `hitl`, `hotl`, `manual` in that order, each
      position's in authored order. */
  lemma FirstBreakReports(d: Declaration, b: Break)
    requires WellBuilt(d) && FirstBreak(d, b)
    ensures b.site.Field? ==> FirstPositionBreak(d) == Some(b)
    ensures b.site.At? ==>
              var p, i := b.site.position, b.site.index;
              && FirstPositionBreak(d) == None && p in d.policy && i < |d.policy[p].overrides|
              && ReportedFor(d.evaluators, d.policy[p], i, b.code) && AllFine(d, p, i)
              && exists n :: 0 <= n < 4 && [Autonomous, Hitl, Hotl, Manual][n] == p &&
                   forall m | 0 <= m < n && [Autonomous, Hitl, Hotl, Manual][m] in d.policy ::
                     var q := [Autonomous, Hitl, Hotl, Manual][m];
                     AllFine(d, q, |d.policy[q].overrides|)
  {
    EarlierFieldsHold(d, b);
    if b.site.At? {
      var p, i := b.site.position, b.site.index;
      ReportMeans(d, d.policy[p], i, b.code);
      forall j: nat | j < i ensures Fine(d.evaluators, d.policy[p], j) { EarlierIsFine(d, b, p, j); }
      assert [Autonomous, Hitl, Hotl, Manual][NameRank(p)] == p;
      forall m | 0 <= m < NameRank(p) && [Autonomous, Hitl, Hotl, Manual][m] in d.policy
        ensures var q := [Autonomous, Hitl, Hotl, Manual][m]; AllFine(d, q, |d.policy[q].overrides|)
      {
        var q := [Autonomous, Hitl, Hotl, Manual][m];
        forall j: nat | j < |d.policy[q].overrides| ensures Fine(d.evaluators, d.policy[q], j) {
          EarlierIsFine(d, b, q, j);
        }
      }
    }
  }

  lemma EarlierFieldsHold(d: Declaration, b: Break)
    requires FirstBreak(d, b)
    ensures b.site.Field? ==> FirstPositionBreak(d) == Some(b)
    ensures b.site.At? ==> FirstPositionBreak(d) == None
  {
    if FirstPositionBreak(d).Some? { assert Broken(d, FirstPositionBreak(d).value); }
  }

  lemma EarlierIsFine(d: Declaration, b: Break, q: Position, j: nat)
    requires WellBuilt(d) && FirstBreak(d, b)
    requires q in d.policy && j < |d.policy[q].overrides| && Earlier(At(q, j), b.site)
    ensures Fine(d.evaluators, d.policy[q], j)
  {
    forall code ensures !OverrideBreaks(d, d.policy[q], j, code) {
      assert !Broken(d, Break(At(q, j), code));
    }
    UnbrokenIsFine(d, d.policy[q], j);
  }

  /** No evaluator at all, declared or not, matches two overrides of a sound
      placement. */
  lemma AtMostOneMatches(d: Declaration, pl: Placement, e: Evaluator, i: nat, j: nat)
    requires SoundPlacement(d, pl)
    requires i < |pl.overrides| && j < |pl.overrides|
    requires pl.overrides[i].selector.Matches(e) && pl.overrides[j].selector.Matches(e)
    ensures i == j
  {
    var os := pl.overrides;
    assert PicksOne(d, os[i]) && PicksOne(d, os[j]);
    var a: nat :| PicksOnly(d, os[i], a);
    var b: nat :| PicksOnly(d, os[j], b);
    assert a == b;
    assert SameClaim(d, os, i, j) && SameClaim(d, os, j, i);
  }

  lemma {:induction false} FirstMatchIs(os: seq<Override>, e: Evaluator, default: Mode)
    ensures (forall o :: o in os ==> !o.selector.Matches(e)) ==> FirstMatch(os, e, default) == default
    ensures (exists o :: o in os && o.selector.Matches(e)) ==>
              exists o :: o in os && o.selector.Matches(e) && FirstMatch(os, e, default) == o.placement
  {
    if os != [] {
      FirstMatchIs(os[1..], e, default);
      assert os == [os[0]] + os[1..];
    }
  }

  /** Permuting the overrides of an accepted declaration changes no lookup. */
  lemma OrderIndependent(d: Declaration, p: Position, permuted: seq<Override>, e: Evaluator)
    requires Sound(d) && p in d.policy
    requires multiset(permuted) == multiset(d.policy[p].overrides)
    ensures d.policy[p].(overrides := permuted).ForEvaluator(e) == d.policy[p].ForEvaluator(e)
  {
    var pl := d.policy[p];
    forall o ensures o in pl.overrides <==> o in permuted {
      assert o in multiset(pl.overrides) <==> o in multiset(permuted);
    }
    forall o, u | o in pl.overrides && u in pl.overrides && o.selector.Matches(e) && u.selector.Matches(e)
      ensures o == u
    {
      var i: nat :| i < |pl.overrides| && pl.overrides[i] == o;
      var j: nat :| j < |pl.overrides| && pl.overrides[j] == u;
      AtMostOneMatches(d, pl, e, i, j);
    }
    SameMatch(pl.overrides, permuted, e, pl.default);
  }

  lemma SameMatch(os: seq<Override>, us: seq<Override>, e: Evaluator, default: Mode)
    requires forall o :: o in os <==> o in us
    requires forall o, u :: o in os && u in os && o.selector.Matches(e) && u.selector.Matches(e) ==> o == u
    ensures FirstMatch(os, e, default) == FirstMatch(us, e, default)
  {
    FirstMatchIs(os, e, default);
    FirstMatchIs(us, e, default);
  }

  /** The declared evaluators claimed by the first n overrides. */
  ghost function Claimed(d: Declaration, pl: Placement, n: nat): set<nat>
    requires n <= |pl.overrides|
  {
    set e: nat, i: nat | i < n && e < |d.evaluators| && pl.overrides[i].selector.Matches(d.evaluators[e]) :: e
  }

  lemma {:induction false} ClaimedCount(d: Declaration, pl: Placement, n: nat)
    requires SoundPlacement(d, pl) && n <= |pl.overrides|
    ensures |Claimed(d, pl, n)| == n
  {
    if n > 0 {
      var i := n - 1;
      ClaimedCount(d, pl, i);
      var e := OneMoreClaim(d, pl, i);
    }
  }

  lemma OneMoreClaim(d: Declaration, pl: Placement, i: nat) returns (e: nat)
    requires SoundPlacement(d, pl) && i < |pl.overrides|
    ensures e !in Claimed(d, pl, i) && Claimed(d, pl, i + 1) == Claimed(d, pl, i) + {e}
  {
    assert PicksOne(d, pl.overrides[i]);
    e :| PicksOnly(d, pl.overrides[i], e);
    if e in Claimed(d, pl, i) {
      var j: nat :| j < i && pl.overrides[j].selector.Matches(d.evaluators[e]);
      AtMostOneMatches(d, pl, d.evaluators[e], i, j);
    }
    forall x ensures x in Claimed(d, pl, i + 1) <==> x in Claimed(d, pl, i) || x == e { }
  }

  /** Overrides are exactly the declared evaluators that leave the default. */
  lemma OverriddenCount(d: Declaration, p: Position)
    requires Sound(d) && p in d.policy
    ensures var pl := d.policy[p];
            |set e: nat | e < |d.evaluators| && pl.ForEvaluator(d.evaluators[e]) != pl.default| == |pl.overrides|
  {
    var pl := d.policy[p];
    var os := pl.overrides;
    var moved := set e: nat | e < |d.evaluators| && pl.ForEvaluator(d.evaluators[e]) != pl.default;
    forall e: nat ensures e in moved <==> e in Claimed(d, pl, |os|) {
      if e < |d.evaluators| {
        FirstMatchIs(os, d.evaluators[e], pl.default);
        if e in Claimed(d, pl, |os|) {
          var i: nat :| i < |os| && os[i].selector.Matches(d.evaluators[e]);
          assert os[i] in os;
          forall o | o in os && o.selector.Matches(d.evaluators[e]) ensures o.placement != pl.default {
            var j: nat :| j < |os| && os[j] == o;
          }
        }
      }
    }
    assert moved == Claimed(d, pl, |os|);
    ClaimedCount(d, pl, |os|);
  }
}
