/** The default event store: one append-only table behind one write lock, and
    any number of connections to it. */
module SqliteStore {
  import opened Text
  import opened Events
  import opened Reads
  import Sorting

  datatype StoreError = NestedTransaction | Locked | NotInTransaction | ConstraintViolated

  /** The rows a table of these records holds, in no particular order. */
  function RowsOf(s: seq<Row>): set<Row>
  {
    set e | e in s
  }

  /** The NOT-IN-vocabulary CHECKs, the primary key and the (motion_id, event) index. */
  ghost predicate Consistent(s: seq<Row>)
  {
    && (forall i :: 0 <= i < |s| ==> InVocabulary(s[i]))
    && (forall i, j :: 0 <= i < j < |s| ==> !Clash(s[i], s[j]))
  }

  predicate Refused(rows: seq<Row>, e: Row)
  {
    !InVocabulary(e) || exists x :: x in rows && Clash(x, e)
  }

  /** On the fields: the four kinds, the four positions, no id twice, and no motion
      with two rows of one kind. */
  lemma ConsistentFields(s: seq<Row>)
    ensures Consistent(s) <==>
              && (forall i :: 0 <= i < |s| ==>
                    && s[i].event in {MotionProposed, MotionApproved, MotionRejected, PositionChanged}
                    && s[i].fromPosition in {Manual, Hitl, Hotl, Autonomous}
                    && s[i].toPosition in {Manual, Hitl, Hotl, Autonomous})
              && forall i, j :: 0 <= i < j < |s| ==>
                   s[i].id != s[j].id && !(s[i].motionId == s[j].motionId && s[i].event == s[j].event)
  {
  }

  lemma ConsistentIsTable(s: seq<Row>)
    requires Consistent(s)
    ensures Table(RowsOf(s))
  {
    forall a, b | a in s && b in s && Clash(a, b) ensures a == b {
      var i :| 0 <= i < |s| && s[i] == a;
      var j :| 0 <= j < |s| && s[j] == b;
      assert i == j;
    }
  }

  lemma ConsistentExtend(s: seq<Row>, e: Row)
    requires Consistent(s)
    ensures Consistent(s + [e]) <==> !Refused(s, e)
  {
    var u := s + [e];
    if !Refused(s, e) {
      forall i, j | 0 <= i < j < |u| ensures !Clash(u[i], u[j]) {
        if j == |s| { assert u[i] in s; }
      }
    } else if x :| x in s && Clash(x, e) {
      var i :| 0 <= i < |s| && s[i] == x;
      assert Clash(u[i], u[|s|]);
    } else {
      assert u[|s|] == e;
    }
  }

  lemma ConsistentPrefix(s: seq<Row>, u: seq<Row>)
    requires Consistent(s + u)
    ensures Consistent(s)
  {
    forall i, j | 0 <= i < j < |s| ensures !Clash(s[i], s[j]) {
      assert (s + u)[i] == s[i] && (s + u)[j] == s[j];
    }
    forall i | 0 <= i < |s| ensures InVocabulary(s[i]) {
      assert (s + u)[i] == s[i];
    }
  }

  /** Appending the next row either keeps the constraints or already shows that
      the whole batch breaks them. */
  lemma AppendOne(before: seq<Row>, rows: seq<Row>, i: nat)
    requires i < |rows| && Consistent(before + rows[..i])
    ensures before + rows[..i] + [rows[i]] == before + rows[..i + 1]
    ensures Refused(before + rows[..i], rows[i]) ==> !Consistent(before + rows)
  {
    assert before + rows[..i] + [rows[i]] == before + rows[..i + 1];
    ConsistentExtend(before + rows[..i], rows[i]);
    if Consistent(before + rows) {
      assert before + rows == (before + rows[..i + 1]) + rows[i + 1..];
      ConsistentPrefix(before + rows[..i + 1], rows[i + 1..]);
    }
  }

  lemma RowsOfConcat(s: seq<Row>, u: seq<Row>)
    ensures RowsOf(s + u) == RowsOf(s) + RowsOf(u)
  {
  }

  /** What one database file holds: committed rows, the rows the lock holder has
      written but not committed, and who holds the write lock. */
  class Database {
    var committed: seq<Row>
    var pending: seq<Row>
    var writer: Option<nat>

    ghost predicate Valid()
      reads this
    {
      Consistent(committed + pending) && (writer.None? ==> pending == [])
    }

    constructor ()
      ensures Valid() && committed == [] && writer == None
    {
      committed, pending, writer := [], [], None;
    }

    /** The whole effect of other connections' transactions between two moments
        at which nobody holds the lock. */
    method Arrive(rows: seq<Row>)
      requires Valid() && writer.None? && Consistent(committed + rows)
      modifies this`committed
      ensures Valid() && committed == old(committed) + rows
    {
      committed := committed + rows;
      assert committed + [] == committed;
    }
  }

  /** One connection. */
  class SqliteEventStore {
    const db: Database
    const me: nat
    var inTransaction: bool

    ghost predicate Valid()
      reads this, db
    {
      db.Valid() && (db.writer == Some(me) ==> inTransaction)
    }

    predicate Holding()
      reads this, db
    {
      inTransaction && db.writer == Some(me)
    }

    /** What this connection's reads range over: the committed rows and its own
        uncommitted ones, never another connection's. */
    function Visible(): (r: seq<Row>)
      reads this, db
    {
      if db.writer == Some(me) then db.committed + db.pending else db.committed
    }

    constructor (db: Database, me: nat)
      requires db.Valid() && db.writer != Some(me)
      ensures Valid() && this.db == db && this.me == me && !inTransaction
    {
      this.db, this.me, inTransaction := db, me, false;
    }

    /** BEGIN: takes no lock. */
    method Begin() returns (r: Option<StoreError>)
      requires Valid()
      modifies this
      ensures Valid() && inTransaction
      ensures r == if old(inTransaction) then Some(NestedTransaction) else None
    {
      if inTransaction { return Some(NestedTransaction); }
      inTransaction := true;
      r := None;
    }

    /** BEGIN IMMEDIATE: takes the write lock up front. */
    method BeginImmediate() returns (r: Option<StoreError>)
      requires Valid()
      modifies this, db`writer
      ensures Valid()
      ensures r == if old(inTransaction) then Some(NestedTransaction)
                   else if old(db.writer).Some? then Some(Locked) else None
      ensures r.Some? ==> inTransaction == old(inTransaction) && db.writer == old(db.writer)
      ensures r.None? ==> Holding() && db.pending == []
    {
      if inTransaction { return Some(NestedTransaction); }
      if db.writer.Some? { return Some(Locked); }
      inTransaction := true;
      db.writer := Some(me);
      r := None;
    }

    method Commit()
      requires Valid() && inTransaction
      modifies this, db
      ensures Valid() && !inTransaction && db.writer != Some(me)
      ensures db.committed == old(Visible())
      ensures db.writer == if old(db.writer) == Some(me) then None else old(db.writer)
      ensures db.pending == if old(db.writer) == Some(me) then [] else old(db.pending)
    {
      if db.writer == Some(me) {
        db.committed, db.pending, db.writer := db.committed + db.pending, [], None;
        assert db.committed + [] == db.committed;
      }
      inTransaction := false;
    }

    method Rollback()
      requires Valid() && inTransaction
      modifies this, db
      ensures Valid() && !inTransaction && db.writer != Some(me)
      ensures db.committed == old(db.committed)
      ensures db.writer == if old(db.writer) == Some(me) then None else old(db.writer)
      ensures db.pending == if old(db.writer) == Some(me) then [] else old(db.pending)
    {
      if db.writer == Some(me) {
        ConsistentPrefix(db.committed, db.pending);
        db.pending, db.writer := [], None;
        assert db.committed + [] == db.committed;
      }
      inTransaction := false;
    }

    /** INSERT: needs an open transaction, takes the write lock if the
        transaction does not hold it yet, and is refused by any constraint. */
    method Insert(e: Row) returns (r: Option<StoreError>)
      requires Valid()
      modifies db`pending, db`writer
      ensures Valid()
      ensures r == if !inTransaction then Some(NotInTransaction)
                   else if old(db.writer).Some? && old(db.writer) != Some(me) then Some(Locked)
                   else if Refused(old(Visible()), e) then Some(ConstraintViolated)
                   else None
      ensures r == Some(ConstraintViolated) ==>
                || e.event !in {MotionProposed, MotionApproved, MotionRejected, PositionChanged}
                || e.fromPosition !in {Manual, Hitl, Hotl, Autonomous}
                || e.toPosition !in {Manual, Hitl, Hotl, Autonomous}
                || exists x :: x in old(Visible()) && (x.id == e.id || (x.motionId == e.motionId && x.event == e.event))
      ensures r.None? ==> Holding() && db.pending == old(db.pending) + [e] && Visible() == old(Visible()) + [e]
      ensures r.Some? ==> db.pending == old(db.pending) && Visible() == old(Visible())
      ensures r.Some? ==> db.writer == if r == Some(ConstraintViolated) then Some(me) else old(db.writer)
    {
      if !inTransaction { return Some(NotInTransaction); }
      if db.writer.Some? && db.writer != Some(me) { return Some(Locked); }
      assert Visible() == db.committed + db.pending by { assert db.committed + [] == db.committed; }
      db.writer := Some(me);
      if Refused(db.committed + db.pending, e) { return Some(ConstraintViolated); }
      ConsistentExtend(db.committed + db.pending, e);
      assert db.committed + (db.pending + [e]) == db.committed + db.pending + [e];
      db.pending := db.pending + [e];
      r := None;
    }

    // ----- The readers -----

    lemma VisibleConsistent()
      requires Valid()
      ensures Consistent(Visible()) && Table(RowsOf(Visible()))
    {
      ConsistentPrefix(db.committed, db.pending);
      ConsistentIsTable(Visible());
    }

    /** WHERE keep ORDER BY created_at DESC, id DESC LIMIT 1 */
    method SelectLast(keep: Row -> bool) returns (r: Option<Row>)
      requires Valid()
      ensures r == Last(set e | e in RowsOf(Visible()) && keep(e))
    {
      VisibleConsistent();
      var rows := Visible();
      r := None;
      for i := 0 to |rows|
        invariant r.None? ==> forall e :: e in rows[..i] ==> !keep(e)
        invariant r.Some? ==> r.value in rows[..i] && keep(r.value)
        invariant r.Some? ==> forall e :: e in rows[..i] && keep(e) && e != r.value ==> Precedes(e, r.value)
      {
        var x := rows[i];
        assert rows[..i + 1] == rows[..i] + [x];
        if keep(x) {
          if r.None? {
            r := Some(x);
          } else {
            var best := r.value;
            var j :| 0 <= j < i && rows[j] == best;
            assert !Clash(rows[j], rows[i]);
            PrecedesTotal(best, x);
            if Precedes(best, x) {
              forall e | e in rows[..i] && keep(e) ensures Precedes(e, x) {
                if e != best { PrecedesTransitive(e, best, x); }
              }
              r := Some(x);
            }
          }
        }
      }
      assert rows[..|rows|] == rows;
      ghost var s := set e | e in RowsOf(rows) && keep(e);
      if r.Some? {
        assert Greatest(s, r.value);
        LastIs(s, r.value);
      } else {
        assert s == {};
      }
    }

    /** WHERE keep ORDER BY created_at, id */
    method SelectOrdered(keep: Row -> bool) returns (r: seq<Row>)
      requires Valid()
      ensures Lists(r, set e | e in RowsOf(Visible()) && keep(e))
    {
      VisibleConsistent();
      var rows := Visible();
      r := [];
      for i := 0 to |rows|
        invariant Lists(r, set e | e in RowsOf(rows[..i]) && keep(e))
      {
        var x := rows[i];
        assert rows[..i + 1] == rows[..i] + [x];
        ghost var seen := set e | e in RowsOf(rows[..i]) && keep(e);
        if keep(x) {
          forall e | e in seen ensures e.id != x.id {
            var j :| 0 <= j < i && rows[j] == e;
            assert !Clash(rows[j], rows[i]);
          }
          InsertOrderedLists(r, seen, x);
          r := Sorting.Insert(Precedes, r, x);
          assert seen + {x} == set e | e in RowsOf(rows[..i + 1]) && keep(e);
        } else {
          assert seen == set e | e in RowsOf(rows[..i + 1]) && keep(e);
        }
      }
      assert rows[..|rows|] == rows;
    }

    method GetAutonomyEventsForMotion(motionId: string) returns (r: seq<Row>)
      requires Valid()
      ensures Lists(r, set e | e in RowsOf(Visible()) && e.motionId == motionId)
    {
      r := SelectOrdered((e: Row) => e.motionId == motionId);
    }

    method GetAutonomyEvents(task: Option<string>) returns (r: seq<Row>)
      requires Valid()
      ensures Lists(r, set e | e in RowsOf(Visible()) && (task.None? || e.task == task.value))
    {
      r := SelectOrdered((e: Row) => task.None? || e.task == task.value);
    }

    method GetLatestPositionChangedEvent(k: Triple) returns (r: Option<Row>)
      requires Valid()
      ensures r == Latest(RowsOf(Visible()), k)
    {
      var keep := (e: Row) => IsChange(e, k);
      r := SelectLast(keep);
      assert Changes(RowsOf(Visible()), k) == set e | e in RowsOf(Visible()) && keep(e);
    }

    method GetPositionChangedEventBefore(k: Triple, at: string, id: string) returns (r: Option<Row>)
      requires Valid()
      ensures r == LatestBefore(RowsOf(Visible()), k, at, id)
    {
      var keep := (e: Row) => IsChange(e, k) && BeforePoint(e, at, id);
      r := SelectLast(keep);
      assert ChangesBefore(RowsOf(Visible()), k, at, id) == set e | e in RowsOf(Visible()) && keep(e);
    }
  }
}
