/** Task declarations once built: the cross-field rules, the placement-override
    validator, and the first-match lookup that validator justifies. */
module Declarations {
  import opened Text
  import opened Events

  datatype Mode = Offline | Blocking | Async

  datatype EvaluationBasis = EvaluationBasis(kind: string, ref: string)

  datatype Evaluator = Evaluator(property: string, target: string, technique: string, basis: EvaluationBasis,
                                 epistemicStatus: string, version: string, authority: string)

  datatype Selector = Selector(property: string, technique: string, version: Option<string>) {
    predicate Matches(e: Evaluator)
    {
      && e.property == property
      && e.technique == technique
      && (version.None? || e.version == version.value)
    }
  }

  datatype Override = Override(selector: Selector, placement: Mode)

  datatype Placement = Placement(default: Mode, overrides: seq<Override>) {
    /** The mode governing e: the first override that matches, else the default. */
    function ForEvaluator(e: Evaluator): Mode
    {
      FirstMatch(overrides, e, default)
    }
  }

  function FirstMatch(overrides: seq<Override>, e: Evaluator, default: Mode): Mode
  {
    if overrides == [] then default
    else if overrides[0].selector.Matches(e) then overrides[0].placement
    else FirstMatch(overrides[1..], e, default)
  }

  datatype Edge = Edge(fromPosition: Position, toPosition: Position)

  datatype Declaration = Declaration(
    task: string, version: int, deployment: string, initialPosition: Position,
    evaluators: seq<Evaluator>, policy: map<Position, Placement>,
    promotion: Edge, demotion: Edge, scopes: Option<seq<string>>)

  // ----- The rules, one site at a time -----

  datatype Code =
    | InitialNotInPolicy | SamePosition | PositionNotInPolicy
    | MatchesNoEvaluator | Ambiguous | DuplicateOf(claimant: nat) | Redundant

  /** Where a rule is checked.  Fields are numbered in scan order: the initial
      position, then for promotion and demotion the pair, its `from`, its `to`. */
  datatype Site = Field(n: nat) | At(position: Position, index: nat)

  datatype Break = Break(site: Site, code: Code)

  /** The positions in name order, which is the order declared ones are scanned in. */
  const SORTED_POSITIONS := [Autonomous, Hitl, Hotl, Manual]

  function NameRank(p: Position): nat
  {
    match p
    case Autonomous => 0
    case Hitl => 1
    case Hotl => 2
    case Manual => 3
    case OtherPosition(_) => 4
  }

  ghost predicate IsSite(d: Declaration, s: Site)
  {
    match s
    case Field(n) => n < 7
    case At(p, i) => !p.OtherPosition? && p in d.policy && i < |d.policy[p].overrides|
  }

  predicate Earlier(a: Site, b: Site)
  {
    match (a, b)
    case (Field(m), Field(n)) => m < n
    case (Field(_), At(_, _)) => true
    case (At(_, _), Field(_)) => false
    case (At(p, i), At(q, j)) => NameRank(p) < NameRank(q) || (p == q && i < j)
  }

  /** The indices of the declared evaluators a selector picks, ascending. */
  function Picks(sel: Selector, evaluators: seq<Evaluator>, start: nat := 0): (r: seq<nat>)
    ensures forall i :: i in r <==> start <= i < start + |evaluators| && sel.Matches(evaluators[i - start])
    ensures forall i, j :: 0 <= i < j < |r| ==> r[i] < r[j]
  {
    if evaluators == [] then []
    else
      var rest := Picks(sel, evaluators[1..], start + 1);
      assert forall j :: 0 <= j < |rest| ==> rest[j] in rest;
      if sel.Matches(evaluators[0]) then [start] + rest else rest
  }

  ghost predicate PicksOnly(d: Declaration, o: Override, e: nat)
  {
    e < |d.evaluators| && o.selector.Matches(d.evaluators[e]) &&
    forall i :: 0 <= i < |d.evaluators| && o.selector.Matches(d.evaluators[i]) ==> i == e
  }

  ghost predicate PicksOne(d: Declaration, o: Override)
  {
    exists e: nat :: PicksOnly(d, o, e)
  }

  /** Overrides j and i of one position select one and the same evaluator. */
  ghost predicate SameClaim(d: Declaration, os: seq<Override>, j: nat, i: nat)
    requires j < |os| && i < |os|
  {
    exists e: nat :: PicksOnly(d, os[j], e) && PicksOnly(d, os[i], e)
  }

  ghost predicate OverrideBreaks(d: Declaration, pl: Placement, i: nat, code: Code)
    requires i < |pl.overrides|
  {
    var o := pl.overrides[i];
    match code
    case MatchesNoEvaluator =>
      forall e :: e in d.evaluators ==> !o.selector.Matches(e)
    case Ambiguous =>
      exists a, b :: 0 <= a < b < |d.evaluators| &&
                     o.selector.Matches(d.evaluators[a]) && o.selector.Matches(d.evaluators[b])
    case DuplicateOf(j) =>
      j < i && SameClaim(d, pl.overrides, j, i) && forall j' :: 0 <= j' < j ==> !SameClaim(d, pl.overrides, j', i)
    case Redundant =>
      && o.placement == pl.default
      && PicksOne(d, o)
      && (forall j :: 0 <= j < i ==> !SameClaim(d, pl.overrides, j, i))
    case _ => false
  }

  /** The rule checked at site s is broken, in the way the code says. */
  ghost predicate Broken(d: Declaration, b: Break)
  {
    IsSite(d, b.site) &&
    match b.site
    case Field(n) =>
      (match n
       case 0 => b.code == InitialNotInPolicy && d.initialPosition !in d.policy
       case 1 => b.code == SamePosition && d.promotion.fromPosition == d.promotion.toPosition
       case 2 => b.code == PositionNotInPolicy && d.promotion.fromPosition !in d.policy
       case 3 => b.code == PositionNotInPolicy && d.promotion.toPosition !in d.policy
       case 4 => b.code == SamePosition && d.demotion.fromPosition == d.demotion.toPosition
       case 5 => b.code == PositionNotInPolicy && d.demotion.fromPosition !in d.policy
       case _ => b.code == PositionNotInPolicy && d.demotion.toPosition !in d.policy)
    case At(p, i) => OverrideBreaks(d, d.policy[p], i, b.code)
  }

  ghost predicate FirstBreak(d: Declaration, b: Break)
  {
    Broken(d, b) && forall b' :: Broken(d, b') ==> !Earlier(b'.site, b.site)
  }

  // ----- The same rules, as one statement -----

  /** Every override of the placement picks one evaluator, none that another
      picks, and differs from the default. */
  ghost predicate SoundPlacement(d: Declaration, pl: Placement)
  {
    && (forall i :: 0 <= i < |pl.overrides| ==> PicksOne(d, pl.overrides[i]))
    && (forall i, j :: 0 <= i < j < |pl.overrides| ==> !SameClaim(d, pl.overrides, i, j))
    && (forall i :: 0 <= i < |pl.overrides| ==> pl.overrides[i].placement != pl.default)
  }

  ghost predicate Sound(d: Declaration)
  {
    && d.initialPosition in d.policy
    && d.promotion.fromPosition != d.promotion.toPosition
    && d.promotion.fromPosition in d.policy && d.promotion.toPosition in d.policy
    && d.demotion.fromPosition != d.demotion.toPosition
    && d.demotion.fromPosition in d.policy && d.demotion.toPosition in d.policy
    && forall p :: p in d.policy ==> SoundPlacement(d, d.policy[p])
  }

  /** What the structural guards in front of these rules already exclude: a
      policy key outside the four positions. */
  ghost predicate WellBuilt(d: Declaration)
  {
    forall p :: p in d.policy ==> !p.OtherPosition?
  }

  lemma DuplicateIsReported(d: Declaration, p: Position, i: nat, j: nat)
    requires WellBuilt(d) && p in d.policy
    requires j < i < |d.policy[p].overrides| && SameClaim(d, d.policy[p].overrides, j, i)
    ensures exists b :: Broken(d, b)
    decreases j
  {
    var os := d.policy[p].overrides;
    if k: nat :| k < j && SameClaim(d, os, k, i) {
      DuplicateIsReported(d, p, i, k);
    } else {
      assert Broken(d, Break(At(p, i), DuplicateOf(j)));
    }
  }

  /** Nothing is reported exactly for the declarations that keep every rule. */
  lemma SoundIffUnbroken(d: Declaration)
    requires WellBuilt(d)
    ensures Sound(d) <==> forall b :: !Broken(d, b)
  {
    if forall b :: !Broken(d, b) {
      assert !Broken(d, Break(Field(0), InitialNotInPolicy));
      assert !Broken(d, Break(Field(1), SamePosition));
      assert !Broken(d, Break(Field(2), PositionNotInPolicy));
      assert !Broken(d, Break(Field(3), PositionNotInPolicy));
      assert !Broken(d, Break(Field(4), SamePosition));
      assert !Broken(d, Break(Field(5), PositionNotInPolicy));
      assert !Broken(d, Break(Field(6), PositionNotInPolicy));
      forall p | p in d.policy ensures SoundPlacement(d, d.policy[p]) {
        UnbrokenPlacement(d, p);
      }
    } else if Sound(d) {
      var b :| Broken(d, b);
      if b.site.At? {
        SoundOverrideUnbroken(d, d.policy[b.site.position], b.site.index, b.code);
      }
    }
  }

  lemma UnbrokenPlacement(d: Declaration, p: Position)
    requires WellBuilt(d) && p in d.policy
    requires forall b :: !Broken(d, b)
    ensures SoundPlacement(d, d.policy[p])
  {
    var pl := d.policy[p];
    forall i: nat | i < |pl.overrides| ensures PicksOne(d, pl.overrides[i]) {
      assert !Broken(d, Break(At(p, i), MatchesNoEvaluator));
      assert !Broken(d, Break(At(p, i), Ambiguous));
      var x :| x in d.evaluators && pl.overrides[i].selector.Matches(x);
      var e: nat :| e < |d.evaluators| && d.evaluators[e] == x;
      assert PicksOnly(d, pl.overrides[i], e);
    }
    forall i: nat, j: nat | i < j < |pl.overrides| ensures !SameClaim(d, pl.overrides, i, j) {
      if SameClaim(d, pl.overrides, i, j) { DuplicateIsReported(d, p, j, i); }
    }
    forall i: nat | i < |pl.overrides| ensures pl.overrides[i].placement != pl.default {
      assert !Broken(d, Break(At(p, i), Redundant));
    }
  }

  lemma SoundOverrideUnbroken(d: Declaration, pl: Placement, i: nat, code: Code)
    requires SoundPlacement(d, pl) && i < |pl.overrides|
    ensures !OverrideBreaks(d, pl, i, code)
  {
    var e: nat :| PicksOnly(d, pl.overrides[i], e);
    assert d.evaluators[e] in d.evaluators;
  }

  // ----- The validators -----

  /** Scans positions in name order and overrides in authored order, claiming
      each picked evaluator for the override that picked it first. */
  method ValidatePlacementOverrides(d: Declaration) returns (r: Option<Break>)
    requires WellBuilt(d)
    ensures r.None? ==> forall b :: Broken(d, b) ==> b.site.Field?
    ensures r.Some? ==> r.value.site.At? && Broken(d, r.value)
    ensures r.Some? ==> forall b :: Broken(d, b) && b.site.At? ==> !Earlier(b.site, r.value.site)
  {
    for n := 0 to 4
      invariant forall b :: Broken(d, b) && b.site.At? ==> n <= NameRank(b.site.position)
    {
      var p := SORTED_POSITIONS[n];
      if p in d.policy {
        r := ValidatePosition(d, p);
        if r.Some? {
          return;
        }
      }
    }
    r := None;
  }

  lemma NonePicked(s: Selector, evaluators: seq<Evaluator>)
    requires Picks(s, evaluators) == []
    ensures forall x :: x in evaluators ==> !s.Matches(x)
  {
    forall x | x in evaluators ensures !s.Matches(x) {
      var k :| 0 <= k < |evaluators| && evaluators[k] == x;
      assert k !in Picks(s, evaluators);
    }
  }

  lemma OnePicked(d: Declaration, o: Override)
    requires |Picks(o.selector, d.evaluators)| == 1
    ensures PicksOnly(d, o, Picks(o.selector, d.evaluators)[0])
  {
    var matches := Picks(o.selector, d.evaluators);
    assert matches[0] in matches && matches == [matches[0]];
    forall k | 0 <= k < |d.evaluators| && o.selector.Matches(d.evaluators[k]) ensures k == matches[0] {
      assert k in matches;
    }
  }

  /** Each evaluator picked alone by one of the first i overrides is claimed, by
      the one that picks it. */
  ghost predicate ClaimsOk(d: Declaration, os: seq<Override>, claimedBy: map<nat, nat>, i: nat)
    requires i <= |os|
  {
    && (forall e :: e in claimedBy ==> claimedBy[e] < i && PicksOnly(d, os[claimedBy[e]], e))
    && (forall j: nat, e: nat :: j < i && PicksOnly(d, os[j], e) ==> e in claimedBy && claimedBy[e] == j)
  }

  lemma ClaimAdded(d: Declaration, os: seq<Override>, claimedBy: map<nat, nat>, i: nat, e: nat)
    requires i < |os| && ClaimsOk(d, os, claimedBy, i) && PicksOnly(d, os[i], e) && e !in claimedBy
    ensures ClaimsOk(d, os, claimedBy[e := i], i + 1)
  {
  }

  method ValidatePosition(d: Declaration, p: Position) returns (r: Option<Break>)
    requires WellBuilt(d) && p in d.policy
    ensures r.None? ==> forall b :: Broken(d, b) && b.site.At? ==> b.site.position != p
    ensures r.Some? ==> r.value.site.At? && r.value.site.position == p && Broken(d, r.value)
    ensures r.Some? ==>
              forall b :: Broken(d, b) && b.site.At? && b.site.position == p ==> !Earlier(b.site, r.value.site)
  {
    var pl := d.policy[p];
    var claimedBy: map<nat, nat> := map[];
    for i := 0 to |pl.overrides|
      invariant forall b :: Broken(d, b) && b.site.At? && b.site.position == p ==> i <= b.site.index
      invariant ClaimsOk(d, pl.overrides, claimedBy, i)
    {
      var o := pl.overrides[i];
      var matches := Picks(o.selector, d.evaluators);
      if |matches| == 0 {
        NonePicked(o.selector, d.evaluators);
        r := Some(Break(At(p, i), MatchesNoEvaluator));
        return;
      }
      var e := matches[0];
      assert e in matches && o.selector.Matches(d.evaluators[e]);
      if |matches| > 1 {
        assert matches[1] in matches;
        assert o.selector.Matches(d.evaluators[matches[1]]);
        r := Some(Break(At(p, i), Ambiguous));
        return;
      }
      OnePicked(d, o);
      if e in claimedBy {
        assert SameClaim(d, pl.overrides, claimedBy[e], i);
        r := Some(Break(At(p, i), DuplicateOf(claimedBy[e])));
        return;
      }
      ClaimAdded(d, pl.overrides, claimedBy, i, e);
      claimedBy := claimedBy[e := i];
      if o.placement == pl.default {
        r := Some(Break(At(p, i), Redundant));
        return;
      }
      assert d.evaluators[e] in d.evaluators;
      assert forall code :: !OverrideBreaks(d, pl, i, code);
    }
    r := None;
  }

  /** Rejects exactly the declarations that break a rule, with the first break
      in scan order. */
  method ValidateSemantics(d: Declaration) returns (r: Option<Break>)
    requires WellBuilt(d)
    ensures r.None? <==> Sound(d)
    ensures r.Some? ==> FirstBreak(d, r.value)
  {
    SoundIffUnbroken(d);
    if d.initialPosition !in d.policy {
      return Some(Break(Field(0), InitialNotInPolicy));
    }
    var transitions := [d.promotion, d.demotion];
    for n := 0 to 2
      invariant forall b :: Broken(d, b) ==> !Earlier(b.site, Field(1 + 3 * n))
    {
      var t := transitions[n];
      if t.fromPosition == t.toPosition {
        return Some(Break(Field(1 + 3 * n), SamePosition));
      }
      if t.fromPosition !in d.policy {
        return Some(Break(Field(2 + 3 * n), PositionNotInPolicy));
      }
      if t.toPosition !in d.policy {
        return Some(Break(Field(3 + 3 * n), PositionNotInPolicy));
      }
    }
    r := ValidatePlacementOverrides(d);
    assert r.Some? ==> Broken(d, r.value);
  }
}
