/** `list_motions`: every motion, derived from event history. */
module Listing {
  import opened Text
  import opened Events
  import opened Reads
  import opened Lifecycle
  import opened Histories
  import opened Motions
  import opened SqliteStore
  import opened Decisions
  import opened Sorting

  /** Listing order: when proposed, then motion id. */
  predicate Before(a: Motion, b: Motion)
  {
    Less(a.proposedAt, b.proposedAt) || (a.proposedAt == b.proposedAt && Less(a.motionId, b.motionId))
  }

  predicate Apart(a: Motion, b: Motion)
  {
    a.motionId != b.motionId
  }

  predicate Differ(a: string, b: string)
  {
    a != b
  }

  lemma OrdersAreStrict()
    ensures StrictOrder(Less) && StrictOrder(Before)
  {
    forall a ensures !Less(a, a) { LessIrreflexive(a); }
    forall a, b, c | Less(a, b) && Less(b, c) ensures Less(a, c) { LessTransitive(a, b, c); }
  }

  ghost function OfTask(t: set<Row>, task: Option<string>): set<Row>
  {
    set e | e in t && (task.None? || e.task == task.value)
  }

  ghost function MotionIds(t: set<Row>): set<string>
  {
    set e | e in t :: e.motionId
  }

  ghost predicate Wanted(m: Motion, status: Option<MotionStatus>)
  {
    status.None? || m.status == status.value
  }

  /** ms is the ordered listing of exactly the wanted motions of t. */
  ghost predicate ListsMotions(ms: seq<Motion>, t: set<Row>, status: Option<MotionStatus>)
  {
    && Sorted(Before, ms)
    && forall m :: m in ms <==> Wanted(m, status) && View(t, m.motionId) == Some(m)
  }

  /** ids are exactly the motions of t with nothing to project from, sorted. */
  ghost predicate ListsCorrupt(ids: seq<string>, t: set<Row>)
  {
    && Sorted(Less, ids)
    && forall id :: id in ids <==> id in MotionIds(t) && View(t, id) == None
  }

  /** The rows of one motion, in the order they were read. */
  function GroupOf(events: seq<Row>, id: string): (r: seq<Row>)
    ensures forall e :: e in r <==> e in events && e.motionId == id
  {
    if events == [] then []
    else
      var n := |events| - 1;
      assert events == events[..n] + [events[n]];
      GroupOf(events[..n], id) + if events[n].motionId == id then [events[n]] else []
  }

  ghost predicate GroupOk(events: seq<Row>, grouped: map<string, seq<Row>>, id: string)
  {
    && (id in grouped <==> GroupOf(events, id) != [])
    && (id in grouped ==> grouped[id] == GroupOf(events, id))
  }

  /** The groups are exactly the motions read, each id once. */
  ghost predicate Groups(events: seq<Row>, grouped: map<string, seq<Row>>, order: seq<string>)
  {
    && Sorted(Differ, order) && (forall id :: id in order <==> id in grouped)
    && (forall id {:trigger GroupOk(events, grouped, id)} :: GroupOk(events, grouped, id))
  }

  function WithRow(grouped: map<string, seq<Row>>, row: Row): map<string, seq<Row>>
  {
    if row.motionId in grouped then grouped[row.motionId := grouped[row.motionId] + [row]]
    else grouped[row.motionId := [row]]
  }

  lemma GroupAppend(events: seq<Row>, row: Row, grouped: map<string, seq<Row>>, id: string)
    requires GroupOk(events, grouped, id)
    ensures GroupOk(events + [row], WithRow(grouped, row), id)
  {
    assert (events + [row])[..|events|] == events;
    assert GroupOf(events + [row], id) == GroupOf(events, id) + if row.motionId == id then [row] else [];
  }

  lemma OrderAppend(order: seq<string>, id: string)
    requires Sorted(Differ, order) && id !in order
    ensures Sorted(Differ, order + [id])
  {
    forall k | 0 <= k < |order| ensures order[k] != id { assert order[k] in order; }
  }

  lemma GroupsAppend(events: seq<Row>, row: Row, grouped: map<string, seq<Row>>, order: seq<string>)
    requires Groups(events, grouped, order)
    ensures Groups(events + [row], WithRow(grouped, row),
                   if row.motionId in grouped then order else order + [row.motionId])
  {
    forall id ensures GroupOk(events + [row], WithRow(grouped, row), id) {
      assert GroupOk(events, grouped, id);
      GroupAppend(events, row, grouped, id);
    }
    if row.motionId !in grouped { OrderAppend(order, row.motionId); }
  }

  method GroupByMotion(events: seq<Row>) returns (grouped: map<string, seq<Row>>, order: seq<string>)
    ensures Groups(events, grouped, order)
  {
    grouped, order := map[], [];
    for i := 0 to |events|
      invariant Groups(events[..i], grouped, order)
    {
      var row := events[i];
      GroupsAppend(events[..i], row, grouped, order);
      assert events[..i + 1] == events[..i] + [row];
      if row.motionId in grouped {
        grouped := grouped[row.motionId := grouped[row.motionId] + [row]];
      } else {
        order := order + [row.motionId];
        grouped := grouped[row.motionId := [row]];
      }
    }
    assert events[..|events|] == events;
  }

  method SortMotions(ms: seq<Motion>) returns (r: seq<Motion>)
    requires Sorted(Apart, ms)
    ensures Sorted(Before, r) && forall m :: m in r <==> m in ms
  {
    r := [];
    for i := 0 to |ms|
      invariant Sorted(Before, r) && forall m :: m in r <==> m in ms[..i]
    {
      var x := ms[i];
      assert ms[..i + 1] == ms[..i] + [x];
      OrdersAreStrict();
      forall e | e in r ensures Before(e, x) || Before(x, e) {
        var j :| 0 <= j < i && ms[j] == e;
        assert Apart(ms[j], ms[i]);
        LessTotal(e.proposedAt, x.proposedAt);
        LessTotal(e.motionId, x.motionId);
      }
      InsertSorted(Before, r, x);
      r := Insert(Before, r, x);
    }
    assert ms[..|ms|] == ms;
  }

  method SortIds(ids: seq<string>) returns (r: seq<string>)
    requires Sorted(Differ, ids)
    ensures Sorted(Less, r) && forall id :: id in r <==> id in ids
  {
    r := [];
    for i := 0 to |ids|
      invariant Sorted(Less, r) && forall id :: id in r <==> id in ids[..i]
    {
      var x := ids[i];
      assert ids[..i + 1] == ids[..i] + [x];
      OrdersAreStrict();
      forall e | e in r ensures Less(e, x) || Less(x, e) {
        var j :| 0 <= j < i && ids[j] == e;
        assert Differ(ids[j], ids[i]);
        LessTotal(e, x);
      }
      InsertSorted(Less, r, x);
      r := Insert(Less, r, x);
    }
    assert ids[..|ids|] == ids;
  }

  ghost predicate Split(t: set<Row>, ids: seq<string>, motions: seq<Motion>, corrupt: seq<string>)
  {
    && Sorted(Apart, motions) && (forall m :: m in motions <==> m.motionId in ids && View(t, m.motionId) == Some(m))
    && Sorted(Differ, corrupt) && (forall id :: id in corrupt <==> id in ids && View(t, id) == None)
  }

  lemma SplitMotion(t: set<Row>, ids: seq<string>, motions: seq<Motion>, corrupt: seq<string>, m: Motion)
    requires Split(t, ids, motions, corrupt) && m.motionId !in ids && View(t, m.motionId) == Some(m)
    ensures Split(t, ids + [m.motionId], motions + [m], corrupt)
  {
    forall k | 0 <= k < |motions| ensures Apart(motions[k], m) { assert motions[k] in motions; }
  }

  lemma SplitCorrupt(t: set<Row>, ids: seq<string>, motions: seq<Motion>, corrupt: seq<string>, id: string)
    requires Split(t, ids, motions, corrupt) && id !in ids && View(t, id) == None
    ensures Split(t, ids + [id], motions, corrupt + [id])
  {
    forall k | 0 <= k < |corrupt| ensures Differ(corrupt[k], id) { assert corrupt[k] in corrupt; }
  }

  lemma SplitAll(t: set<Row>, ids: seq<string>, motions: seq<Motion>, corrupt: seq<string>)
    requires Split(t, ids, motions, corrupt) && forall id :: id in ids <==> id in MotionIds(t)
    ensures forall m :: m in motions <==> View(t, m.motionId) == Some(m)
    ensures forall id :: id in corrupt <==> id in MotionIds(t) && View(t, id) == None
  {
    forall m: Motion | View(t, m.motionId) == Some(m) ensures m.motionId in ids {
      assert Find(t, m.motionId, MotionProposed).value in t;
    }
  }

  /** Projects every group before failing, so that a failure names them all. */
  method ProjectGroups(ghost t: set<Row>, ghost events: seq<Row>, grouped: map<string, seq<Row>>, order: seq<string>)
    returns (motions: seq<Motion>, corrupt: seq<string>)
    requires Table(t) && RowsOf(events) == t && Groups(events, grouped, order)
    ensures Sorted(Apart, motions) && forall m :: m in motions <==> View(t, m.motionId) == Some(m)
    ensures Sorted(Differ, corrupt) && forall id :: id in corrupt <==> id in MotionIds(t) && View(t, id) == None
  {
    motions, corrupt := [], [];
    for i := 0 to |order|
      invariant Split(t, order[..i], motions, corrupt)
    {
      var id := order[i];
      assert order[..i + 1] == order[..i] + [id];
      assert id in order && id !in order[..i] by {
        assert forall k :: 0 <= k < i ==> Differ(order[k], order[i]);
      }
      assert GroupOk(events, grouped, id);
      ProjectIsView(t, id, grouped[id]);
      var projected := Project(grouped[id]);
      if projected.Some? {
        SplitMotion(t, order[..i], motions, corrupt, projected.value);
        motions := motions + [projected.value];
      } else {
        SplitCorrupt(t, order[..i], motions, corrupt, id);
        corrupt := corrupt + [id];
      }
    }
    assert order[..|order|] == order;
    GroupIds(t, events, grouped, order);
    SplitAll(t, order, motions, corrupt);
  }

  lemma GroupIds(t: set<Row>, events: seq<Row>, grouped: map<string, seq<Row>>, order: seq<string>)
    requires RowsOf(events) == t && Groups(events, grouped, order)
    ensures forall id :: id in order <==> id in MotionIds(t)
  {
    forall id ensures id in order <==> id in MotionIds(t) {
      assert GroupOk(events, grouped, id);
      if id in order { assert GroupOf(events, id)[0] in GroupOf(events, id); }
      if e :| e in t && e.motionId == id { assert e in events && e in GroupOf(events, id); }
    }
  }

  // ----- The listing, on the fields -----

  /** By proposal time, then motion id. */
  predicate ListedByTime(ms: seq<Motion>)
  {
    forall i, j :: 0 <= i < j < |ms| ==>
      || Less(ms[i].proposedAt, ms[j].proposedAt)
      || (ms[i].proposedAt == ms[j].proposedAt && Less(ms[i].motionId, ms[j].motionId))
  }

  predicate OnlyAsked(ms: seq<Motion>, status: Option<MotionStatus>, task: Option<string>)
  {
    forall m :: m in ms ==> (status == None || Some(m.status) == status) && (task == None || Some(m.task) == task)
  }

  predicate Asked(e: Row, task: Option<string>)
  {
    task == None || Some(e.task) == task
  }

  /** Every proposal of the task is listed. */
  ghost predicate AllShown(rows: seq<Row>, task: Option<string>, ms: seq<Motion>)
  {
    forall p | p in rows && p.event == MotionProposed && Asked(p, task) ::
      exists m :: m in ms && m.motionId == p.motionId
  }

  /** In order, the motions with a row of the task and no proposal of it. */
  ghost predicate NamesCorrupt(rows: seq<Row>, task: Option<string>, ids: seq<string>)
  {
    && (forall i, j :: 0 <= i < j < |ids| ==> Less(ids[i], ids[j]))
    && forall id :: id in ids <==>
         && (exists e :: e in rows && e.motionId == id && Asked(e, task))
         && !(exists e :: e in rows && e.motionId == id && Asked(e, task) && e.event == MotionProposed)
  }

  lemma ListedFields(rows: seq<Row>, ms: seq<Motion>, status: Option<MotionStatus>, task: Option<string>)
    requires ListsMotions(ms, OfTask(RowsOf(rows), task), status)
    ensures ListedByTime(ms) && OnlyAsked(ms, status, task)
    ensures status == None ==> AllShown(rows, task, ms)
  {
    var t := OfTask(RowsOf(rows), task);
    forall m | m in ms ensures task == None || Some(m.task) == task {
      assert Find(t, m.motionId, MotionProposed).value in t;
    }
    forall p | p in rows && p.event == MotionProposed && Asked(p, task) ensures View(t, p.motionId).Some? {
      assert p in t && Of(p, p.motionId, MotionProposed);
    }
    forall id | View(t, id).Some? ensures View(t, id).value.motionId == id {
    }
    forall p | p in rows && p.event == MotionProposed && Asked(p, task) && status == None
      ensures exists m :: m in ms && m.motionId == p.motionId
    {
      assert View(t, p.motionId).value in ms;
    }
  }

  lemma CorruptFields(rows: seq<Row>, task: Option<string>, ids: seq<string>)
    requires ListsCorrupt(ids, OfTask(RowsOf(rows), task))
    ensures NamesCorrupt(rows, task, ids)
  {
    var t := OfTask(RowsOf(rows), task);
    forall e ensures e in t <==> e in rows && Asked(e, task) { }
    forall id ensures id in MotionIds(t) <==> exists e :: e in rows && e.motionId == id && Asked(e, task) {
      if e :| e in rows && e.motionId == id && Asked(e, task) { assert e in t; }
    }
    forall id ensures View(t, id).Some? <==>
                        exists e :: e in rows && e.motionId == id && Asked(e, task) && e.event == MotionProposed
    {
      if e :| e in rows && e.motionId == id && Asked(e, task) && e.event == MotionProposed { assert e in t; }
    }
  }

  /** Fails exactly when some selected motion has no proposal, naming all of
      them in order; otherwise lists the wanted motions in order. */
  method ListMotions(store: SqliteEventStore, status: Option<MotionStatus>, task: Option<string>)
    returns (r: Result<seq<Motion>, ServiceError>)
    requires store.Valid()
    ensures var t := OfTask(RowsOf(store.Visible()), task);
            if status.Some? && status.value.OtherStatus? then r == Failure(InvalidStatus)
            else if exists id :: id in MotionIds(t) && View(t, id) == None
            then r.Failure? && r.error.CorruptMotions? && ListsCorrupt(r.error.ids, t)
            else r.Success? && ListsMotions(r.value, t, status)
    ensures r.Success? ==> ListedByTime(r.value) && OnlyAsked(r.value, status, task)
    ensures r.Success? && status == None ==> AllShown(store.Visible(), task, r.value)
    ensures r.Failure? && r.error.CorruptMotions? ==> NamesCorrupt(store.Visible(), task, r.error.ids)
  {
    if status.Some? && status.value.OtherStatus? { return Failure(InvalidStatus); }
    var events := store.GetAutonomyEvents(task);
    store.VisibleConsistent();
    ghost var t := OfTask(RowsOf(store.Visible()), task);
    assert RowsOf(events) == t;
    var grouped, order := GroupByMotion(events);
    var motions, corrupt := ProjectGroups(t, events, grouped, order);
    if |corrupt| > 0 {
      assert corrupt[0] in corrupt;
      var ids := SortIds(corrupt);
      CorruptFields(store.Visible(), task, ids);
      return Failure(CorruptMotions(ids));
    }
    if status.Some? {
      var keep := (m: Motion) => m.status == status.value;
      KeepSorted(Apart, keep, motions);
      motions := Keep(keep, motions);
    }
    motions := SortMotions(motions);
    ListedFields(store.Visible(), motions, status, task);
    r := Success(motions);
  }

  /** On a reachable store the listing never fails. */
  lemma ReachableListsAll(cat: Catalog, t: set<Row>, task: Option<string>, id: string)
    requires Inv(cat, t) && id in MotionIds(OfTask(t, task))
    ensures View(OfTask(t, task), id) == View(t, id) && View(t, id).Some?
    ensures task.Some? ==> View(t, id).value.task == task.value
  {
    var u := OfTask(t, task);
    var e :| e in u && e.motionId == id;
    forall x | x in MotionRows(t, id) ensures x in u {
      OneIdentity(cat, t, x, e);
    }
    assert MotionRows(t, id) == MotionRows(u, id);
    assert Table(u);
    ViewOfRows(t, u, id);
    StatusMeans(cat, t, id);
    assert e in MotionRows(t, id);
    FindIs(t, Find(t, id, MotionProposed).value);
  }

  /** The full listing of a reachable store has exactly one motion per id. */
  lemma OneMotionPerId(cat: Catalog, t: set<Row>, all: seq<Motion>)
    requires Inv(cat, t) && ListsMotions(all, t, None)
    ensures forall i, j :: 0 <= i < j < |all| ==> all[i].motionId != all[j].motionId
    ensures forall id :: id in MotionIds(t) <==> exists m :: m in all && m.motionId == id
  {
    OrdersAreStrict();
    forall i, j | 0 <= i < j < |all| ensures all[i].motionId != all[j].motionId {
      assert all[i] in all && all[j] in all;
      assert Before(all[i], all[j]) && !Before(all[i], all[i]);
    }
    assert OfTask(t, None) == t;
    forall id ensures id in MotionIds(t) <==> exists m :: m in all && m.motionId == id {
      if id in MotionIds(t) {
        ReachableListsAll(cat, t, None, id);
        assert View(t, id).value in all;
      }
      if m :| m in all && m.motionId == id {
        assert Find(t, id, MotionProposed).value in t;
      }
    }
  }

  predicate Passes(m: Motion, status: Option<MotionStatus>, task: Option<string>)
  {
    (task.None? || m.task == task.value) && (status.None? || m.status == status.value)
  }

  /** Filtering in the call is filtering the full listing. */
  lemma FilteringAgrees(cat: Catalog, t: set<Row>, status: Option<MotionStatus>, task: Option<string>,
                        all: seq<Motion>, some: seq<Motion>)
    requires Inv(cat, t)
    requires ListsMotions(all, t, None) && ListsMotions(some, OfTask(t, task), status)
    ensures some == Keep((m: Motion) => Passes(m, status, task), all)
  {
    var f := (m: Motion) => Passes(m, status, task);
    OrdersAreStrict();
    KeepSorted(Before, f, all);
    forall m ensures m in some <==> m in Keep(f, all) {
      SameMembership(cat, t, status, task, m);
    }
    SortedUnique(Before, some, Keep(f, all));
  }

  lemma SameMembership(cat: Catalog, t: set<Row>, status: Option<MotionStatus>, task: Option<string>, m: Motion)
    requires Inv(cat, t)
    ensures Wanted(m, status) && View(OfTask(t, task), m.motionId) == Some(m) <==>
              (task.None? || m.task == task.value) && Wanted(m, status) && View(t, m.motionId) == Some(m)
  {
    var u := OfTask(t, task);
    if View(u, m.motionId) == Some(m) {
      assert Find(u, m.motionId, MotionProposed).value in u;
      ReachableListsAll(cat, t, task, m.motionId);
    }
    if View(t, m.motionId) == Some(m) && (task.None? || m.task == task.value) {
      var p := Find(t, m.motionId, MotionProposed).value;
      assert p in u && p.motionId == m.motionId;
      ReachableListsAll(cat, t, task, m.motionId);
    }
  }
}
