/** What the store's constraints and its four readers mean, stated over the set
    of rows alone: nothing here can depend on the order of insertion. */
module Reads {
  import opened Text
  import opened Events
  import opened Sorting

  // ----- Constraints -----

  predicate InVocabulary(e: Row)
  {
    !e.event.OtherKind? && !e.fromPosition.OtherPosition? && !e.toPosition.OtherPosition?
  }

  /** Two rows the PRIMARY KEY or the (motion_id, event) index would not admit together. */
  predicate Clash(a: Row, b: Row)
  {
    a.id == b.id || (a.motionId == b.motionId && a.event == b.event)
  }

  ghost predicate Table(t: set<Row>)
  {
    && (forall e {:trigger InVocabulary(e)} :: e in t ==> InVocabulary(e))
    && (forall a, b {:trigger Clash(a, b)} :: a in t && b in t && Clash(a, b) ==> a == b)
  }

  /** The rows b can all be appended to t without breaking a constraint. */
  ghost predicate Admits(t: set<Row>, b: set<Row>)
  {
    Table(t + b) && t !! b
  }

  // ----- Latest-position lookups -----

  predicate IsChange(e: Row, k: Triple)
  {
    e.event == PositionChanged && TripleOf(e) == k
  }

  ghost function Changes(t: set<Row>, k: Triple): set<Row>
  {
    set e | e in t && IsChange(e, k)
  }

  ghost function ChangesBefore(t: set<Row>, k: Triple, at: string, id: string): set<Row>
  {
    set e | e in t && IsChange(e, k) && BeforePoint(e, at, id)
  }

  ghost predicate Greatest(s: set<Row>, e: Row)
  {
    e in s && forall x :: x in s && x != e ==> Precedes(x, e)
  }

  /** The row an ORDER BY created_at DESC, id DESC LIMIT 1 returns. */
  ghost function Last(s: set<Row>): Option<Row>
  {
    if e :| Greatest(s, e) then Some(e) else None
  }

  ghost function Latest(t: set<Row>, k: Triple): Option<Row>
  {
    Last(Changes(t, k))
  }

  ghost function LatestBefore(t: set<Row>, k: Triple, at: string, id: string): Option<Row>
  {
    Last(ChangesBefore(t, k, at, id))
  }

  lemma GreatestUnique(s: set<Row>, a: Row, b: Row)
    requires Greatest(s, a) && Greatest(s, b)
    ensures a == b
  {
    if a != b { PrecedesAsymmetric(a, b); }
  }

  lemma {:induction false} GreatestExists(s: set<Row>) returns (e: Row)
    requires s != {}
    requires forall a, b :: a in s && b in s && a != b ==> a.id != b.id
    ensures Greatest(s, e)
    decreases |s|
  {
    var x :| x in s;
    if s == {x} {
      e := x;
    } else {
      var y := GreatestExists(s - {x});
      PrecedesTotal(x, y);
      e := if Precedes(x, y) then y else x;
      forall z | z in s && z != e ensures Precedes(z, e) {
        if e == x && z != y {
          PrecedesTransitive(z, y, x);
        }
      }
    }
  }

  /** Last is the greatest row of any set of rows with distinct ids. */
  lemma LastIsGreatest(s: set<Row>)
    requires forall a, b :: a in s && b in s && a != b ==> a.id != b.id
    ensures Last(s) == None <==> s == {}
    ensures Last(s).Some? ==> Greatest(s, Last(s).value)
  {
    if s != {} {
      var e := GreatestExists(s);
    }
  }

  lemma LastIs(s: set<Row>, e: Row)
    requires Greatest(s, e)
    ensures Last(s) == Some(e)
  {
    GreatestUnique(s, Last(s).value, e);
  }

  /** On the fields: the latest change of a task, version and scope is the one no
      other follows by (created_at, id). */
  lemma LatestFields(t: set<Row>, task: string, version: int, scope: Option<string>, c: Row)
    ensures Latest(t, Triple(task, version, scope)) == Some(c) <==>
              && c in t && c.event == PositionChanged
              && c.task == task && c.declarationVersion == version && c.scope == scope
              && forall x | x in t && x.event == PositionChanged && x != c &&
                            x.task == task && x.declarationVersion == version && x.scope == scope ::
                   Less(x.createdAt, c.createdAt) || (x.createdAt == c.createdAt && Less(x.id, c.id))
  {
    var s := Changes(t, Triple(task, version, scope));
    forall x ensures x in s <==> (x in t && x.event == PositionChanged && x.task == task &&
                                  x.declarationVersion == version && x.scope == scope)
    {
    }
    if Greatest(s, c) { LastIs(s, c); }
  }

  /** And the latest before a point, the same among those before the point. */
  lemma LatestBeforeFields(t: set<Row>, task: string, version: int, scope: Option<string>, at: string, id: string,
                           c: Row)
    ensures LatestBefore(t, Triple(task, version, scope), at, id) == Some(c) <==>
              && c in t && c.event == PositionChanged
              && c.task == task && c.declarationVersion == version && c.scope == scope
              && (Less(c.createdAt, at) || (c.createdAt == at && Less(c.id, id)))
              && forall x | x in t && x.event == PositionChanged && x != c &&
                            x.task == task && x.declarationVersion == version && x.scope == scope &&
                            (Less(x.createdAt, at) || (x.createdAt == at && Less(x.id, id))) ::
                   Less(x.createdAt, c.createdAt) || (x.createdAt == c.createdAt && Less(x.id, c.id))
  {
    var s := ChangesBefore(t, Triple(task, version, scope), at, id);
    forall x ensures x in s <==> (x in t && x.event == PositionChanged && x.task == task &&
                                  x.declarationVersion == version && x.scope == scope &&
                                  (Less(x.createdAt, at) || (x.createdAt == at && Less(x.id, id))))
    {
    }
    if Greatest(s, c) { LastIs(s, c); }
  }

  // ----- Ordered listings -----

  /** s is what ORDER BY created_at, id returns for exactly the rows of t. */
  ghost predicate Lists(s: seq<Row>, t: set<Row>)
  {
    Sorted(Precedes, s) && (forall e :: e in s <==> e in t)
  }

  /** On the fields: a listing has every row once, by created_at, then id. */
  lemma ListsFields(s: seq<Row>, t: set<Row>)
    ensures Lists(s, t) <==>
              && (forall e :: e in s <==> e in t)
              && forall i, j :: 0 <= i < j < |s| ==>
                   Less(s[i].createdAt, s[j].createdAt) || (s[i].createdAt == s[j].createdAt && Less(s[i].id, s[j].id))
  {
  }

  lemma PrecedesIsStrict()
    ensures StrictOrder(Precedes)
  {
    forall a ensures !Precedes(a, a) { PrecedesIrreflexive(a); }
    forall a, b, c | Precedes(a, b) && Precedes(b, c) ensures Precedes(a, c) { PrecedesTransitive(a, b, c); }
  }

  lemma LastOfListing(s: seq<Row>, t: set<Row>)
    requires s != [] && Lists(s, t)
    ensures Greatest(t, s[|s| - 1])
  {
    assert s[|s| - 1] in s;
    forall x | x in t && x != s[|s| - 1] ensures Precedes(x, s[|s| - 1]) {
      var i :| 0 <= i < |s| && s[i] == x;
    }
  }

  lemma EmptyListing(s: seq<Row>, t: set<Row>)
    requires Lists(s, t)
    ensures s == [] <==> t == {}
  {
    assert s != [] ==> s[0] in s;
  }

  /** ORDER BY created_at, id leaves nothing to choose. */
  lemma ListingUnique(s: seq<Row>, u: seq<Row>, t: set<Row>)
    requires Lists(s, t) && Lists(u, t)
    ensures s == u
  {
    PrecedesIsStrict();
    SortedUnique(Precedes, s, u);
  }

  lemma InsertOrderedLists(s: seq<Row>, t: set<Row>, e: Row)
    requires Lists(s, t)
    requires forall x :: x in t ==> x.id != e.id
    ensures Lists(Insert(Precedes, s, e), t + {e})
  {
    PrecedesIsStrict();
    forall x | x in s ensures Precedes(x, e) || Precedes(e, x) { PrecedesTotal(x, e); }
    InsertSorted(Precedes, s, e);
  }

  /** Every table has the listing ORDER BY promises. */
  lemma {:induction false} ListingExists(t: set<Row>) returns (s: seq<Row>)
    requires forall a, b :: a in t && b in t && a != b ==> a.id != b.id
    ensures Lists(s, t)
    decreases |t|
  {
    if t == {} {
      s := [];
    } else {
      var e :| e in t;
      var rest := ListingExists(t - {e});
      InsertOrderedLists(rest, t - {e}, e);
      s := Insert(Precedes, rest, e);
      assert t - {e} + {e} == t;
    }
  }
}
