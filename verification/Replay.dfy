/** Importing an exported archive: one transaction, every field verbatim. */
module Replay {
  import opened Text
  import opened Events
  import opened Reads
  import opened Lifecycle
  import opened Motions
  import opened SqliteStore

  /** Appends the whole archive or nothing. */
  method ImportEvents(store: SqliteEventStore, archive: seq<Row>) returns (r: Option<StoreError>)
    requires store.Valid()
    modifies store, store.db
    ensures store.Valid() && store.inTransaction == old(store.inTransaction)
    ensures store.db.writer == old(store.db.writer) && store.db.pending == old(store.db.pending)
    ensures store.db.committed == old(store.db.committed) + if r.None? then archive else []
    ensures r == if old(store.inTransaction) then Some(NestedTransaction)
                 else if old(store.db.writer).Some? && archive != [] then Some(Locked)
                 else if archive != [] && !Consistent(old(store.db.committed) + archive) then Some(ConstraintViolated)
                 else None
  {
    ghost var before := store.db.committed;
    assert before + [] == before;
    r := store.Begin();
    if r.Some? { return; }
    store.VisibleConsistent();
    for i := 0 to |archive|
      invariant store.Valid() && store.inTransaction && store.db.committed == before
      invariant i > 0 ==> store.Holding() && old(store.db.writer).None?
      invariant i == 0 ==> store.db.writer == old(store.db.writer) && store.db.pending == old(store.db.pending)
      invariant store.Visible() == before + archive[..i] && Consistent(before + archive[..i])
    {
      AppendOne(before, archive, i);
      r := store.Insert(archive[i]);
      if r.Some? {
        store.Rollback();
        return;
      }
      store.VisibleConsistent();
    }
    assert archive[..|archive|] == archive;
    store.Commit();
    r := None;
  }

  // ----- Only the set of rows matters -----

  lemma NoRepeats(s: seq<Row>, i: nat, j: nat)
    requires i < j < |s| && s[i] == s[j]
    ensures multiset(s)[s[i]] >= 2
  {
    assert s == s[..j] + [s[j]] + s[j + 1..];
    assert s[..j][i] == s[i];
    assert s[i] in multiset(s[..j]);
  }

  lemma {:induction false} MultiplicityOne(s: seq<Row>)
    requires Consistent(s)
    ensures forall e :: multiset(s)[e] <= 1
  {
    if s != [] {
      var n := |s| - 1;
      assert s == s[..n] + [s[n]];
      ConsistentPrefix(s[..n], [s[n]]);
      MultiplicityOne(s[..n]);
      forall i | 0 <= i < n ensures s[i] != s[n] {
        assert !Clash(s[i], s[n]);
      }
      assert s[n] !in s[..n];
      assert multiset(s) == multiset(s[..n]) + multiset{s[n]};
    }
  }

  /** A permuted archive keeps the constraints whenever the original does. */
  lemma PermutedIsConsistent(a: seq<Row>, b: seq<Row>)
    requires Consistent(a) && multiset(a) == multiset(b)
    ensures Consistent(b) && RowsOf(a) == RowsOf(b)
  {
    forall e ensures e in a <==> e in b {
      assert e in multiset(a) <==> e in multiset(b);
    }
    ConsistentIsTable(a);
    MultiplicityOne(a);
    forall i | 0 <= i < |b| ensures InVocabulary(b[i]) {
      assert b[i] in b;
    }
    forall i, j | 0 <= i < j < |b| ensures !Clash(b[i], b[j]) {
      assert b[i] in b && b[j] in b;
      if Clash(b[i], b[j]) { NoRepeats(b, i, j); }
    }
  }

  /** Any permutation of an exported table imports into an empty store, and the
      result answers every read, fold and projection as the original does. */
  lemma PermutationsAnswerAlike(exported: seq<Row>, permuted: seq<Row>, keep: Row -> bool, listed: seq<Row>,
                                listed': seq<Row>)
    requires Consistent(exported) && multiset(exported) == multiset(permuted)
    requires Lists(listed, set e | e in RowsOf(exported) && keep(e))
    requires Lists(listed', set e | e in RowsOf(permuted) && keep(e))
    ensures Consistent([] + permuted) && listed == listed'
    ensures forall k :: Latest(RowsOf(exported), k) == Latest(RowsOf(permuted), k)
    ensures forall k, at, id :: LatestBefore(RowsOf(exported), k, at, id) == LatestBefore(RowsOf(permuted), k, at, id)
    ensures forall d, scope :: Fold(RowsOf(exported), d, scope) == Fold(RowsOf(permuted), d, scope)
    ensures forall motionId :: View(RowsOf(exported), motionId) == View(RowsOf(permuted), motionId)
  {
    PermutedIsConsistent(exported, permuted);
    assert [] + permuted == permuted;
    ListingUnique(listed, listed', set e | e in RowsOf(exported) && keep(e));
  }
}
