/** What goes wrong when the clock steps back: two families of runs, made of
    calls the service answers by writing, for any accepted declaration, any
    digest, any evidence and any two clock readings. */
module BackwardClock {
  import opened Text
  import opened Events
  import opened Reads
  import opened Declarations
  import opened Lifecycle
  import opened Histories
  import opened Motions
  import opened Evidence
  import opened Decisions
  import opened Authority
  import opened ChainExact
  import Timestamps

  /** The clock read `early` after it had read `late`. */
  predicate StepsBack(early: Timestamps.Reading, late: Timestamps.Reading)
  {
    Timestamps.Valid(early) && Timestamps.Valid(late) && Timestamps.Instant(early) < Timestamps.Instant(late)
  }

  /** A declaration in force, whose authority starts where its promotion starts. */
  ghost predicate Setting(cat: Catalog, d: Declaration, scope: Option<string>)
  {
    Declares(cat, d) && ScopeAllowed(d, scope) && d.initialPosition == d.promotion.fromPosition
  }

  ghost predicate Loads(cat: Catalog, loaded: Loaded, d: Declaration)
  {
    LoadedFrom(cat, loaded) && Lookup(loaded, d.task) == Some(d)
  }

  /** Nothing but data is at the address of data, whatever is published meanwhile. */
  predicate NoCollision(hash: Digest, files: Files, between: Files, data: Bytes)
  {
    hash(data) in Publish(files, between) ==> Holds(hash, Publish(files, between), data)
  }

  lemma StoringWrites(hash: Digest, files: Files, between: Files, data: Bytes)
    requires NoCollision(hash, files, between, data)
    ensures Storing(hash, files, between, data).1 == Success((RefFor(hash(data)), hash(data)))
  {
  }

  // ----- Transactions of rows of the right kind -----

  predicate Moves(d: Declaration, scope: Option<string>, p: Row, edge: Edge)
  {
    p.event == MotionProposed && TripleOf(p) == TripleFor(d, scope) && Edge(p.fromPosition, p.toPosition) == edge
  }

  predicate Carries(p: Row, a: Row, c: Row)
  {
    Copies(a, p, MotionApproved) && Copies(c, p, PositionChanged)
  }

  lemma NoChange(t: set<Row>, d: Declaration, scope: Option<string>)
    requires Changes(t, TripleFor(d, scope)) == {}
    ensures Latest(t, TripleFor(d, scope)) == None && Fold(t, d, scope) == d.initialPosition
  {
  }

  lemma ProposeNext(cat: Catalog, d: Declaration, scope: Option<string>, acts: seq<Action>, t: set<Row>, p: Row)
    requires Setting(cat, d, scope) && History(cat, acts) && After({}, acts) == t
    requires Changes(t, TripleFor(d, scope)) == {} && Moves(d, scope, p, d.promotion) && Admits(t, {p})
    ensures History(cat, acts + [Propose(d, p)]) && After({}, acts + [Propose(d, p)]) == t + {p}
  {
    NoChange(t, d, scope);
    RunAppend(cat, {}, acts, Propose(d, p));
  }

  lemma ApprovalStep(cat: Catalog, d: Declaration, scope: Option<string>, t: set<Row>, p: Row, a: Row, c: Row)
    requires Setting(cat, d, scope) && Moves(d, scope, p, d.promotion) && Open(t, p) && !Stale(t, p)
    requires Carries(p, a, c) && Table(t + {a, c})
    ensures Step(cat, t, Approve(d, p, a, c))
  {
    if a in t { OpenHasNoSiblings(t, p, a); }
    if c in t { OpenHasNoSiblings(t, p, c); }
    assert TripleOf(p).declarationVersion == d.version;
  }

  lemma ApproveNext(cat: Catalog, d: Declaration, scope: Option<string>, acts: seq<Action>, t: set<Row>,
                    p: Row, a: Row, c: Row)
    requires Setting(cat, d, scope) && History(cat, acts) && After({}, acts) == t
    requires Moves(d, scope, p, d.promotion) && Open(t, p) && !Stale(t, p) && Carries(p, a, c) && Table(t + {a, c})
    ensures History(cat, acts + [Approve(d, p, a, c)]) && After({}, acts + [Approve(d, p, a, c)]) == t + {a, c}
  {
    ApprovalStep(cat, d, scope, t, p, a, c);
    RunAppend(cat, {}, acts, Approve(d, p, a, c));
  }

  lemma DemotionStep(cat: Catalog, d: Declaration, scope: Option<string>, t: set<Row>, p: Row, a: Row, c: Row)
    requires Setting(cat, d, scope) && Fold(t, d, scope) == d.demotion.fromPosition
    requires Moves(d, scope, p, d.demotion) && Carries(p, a, c) && Table(t + {p, a, c})
    requires forall x :: x in t ==> x.motionId != p.motionId
    ensures Step(cat, t, Demote(d, p, a, c))
  {
    assert t !! {p, a, c};
  }

  lemma DemoteNext(cat: Catalog, d: Declaration, scope: Option<string>, acts: seq<Action>, t: set<Row>, all: set<Row>,
                   p: Row, a: Row, c: Row)
    requires Setting(cat, d, scope) && Fold(t, d, scope) == d.demotion.fromPosition
    requires History(cat, acts) && After({}, acts) == t && all == t + {p, a, c} && Table(all)
    requires Moves(d, scope, p, d.demotion) && Carries(p, a, c) && forall x :: x in t ==> x.motionId != p.motionId
    ensures History(cat, acts + [Demote(d, p, a, c)]) && After({}, acts + [Demote(d, p, a, c)]) == all
  {
    DemotionStep(cat, d, scope, t, p, a, c);
    RunAppend(cat, {}, acts, Demote(d, p, a, c));
  }

  /** Where nothing but proposals is committed, each is open and not stale. */
  lemma ProposalsOpen(t: set<Row>, p: Row)
    requires Table(t) && p in t && forall e :: e in t ==> e.event == MotionProposed
    ensures Open(t, p) && !Stale(t, p) && Changes(t, TripleOf(p)) == {}
  {
    assert KindsOf(t, p.motionId) == {MotionProposed} by { assert p.event in KindsOf(t, p.motionId); }
    assert Changes(t, TripleOf(p)) == {} && ChangesBefore(t, TripleOf(p), p.createdAt, p.id) == {};
  }

  lemma NothingYet(cat: Catalog, k: Triple)
    requires Accepted(cat)
    ensures History(cat, []) && After({}, []) == {} && Changes({}, k) == {}
  {
  }

  // ----- A demotion that changes nothing -----

  function LostRun(d: Declaration, p: Row, a: Row, c: Row, q: Row, b: Row, e: Row): seq<Action>
  {
    [Propose(d, p), Approve(d, p, a, c), Demote(d, q, b, e)]
  }

  /** Promotion p is approved and demotion q follows. */
  ghost predicate Lost(d: Declaration, scope: Option<string>, p: Row, a: Row, c: Row, q: Row, b: Row, e: Row)
  {
    && Moves(d, scope, p, d.promotion) && Carries(p, a, c) && Moves(d, scope, q, d.demotion) && Carries(q, b, e)
    && p.motionId != q.motionId && Table({p, a, c, q, b, e})
  }

  lemma LostStart(cat: Catalog, d: Declaration, scope: Option<string>, p: Row, a: Row, c: Row)
    requires Accepted(cat) && Setting(cat, d, scope)
    requires Moves(d, scope, p, d.promotion) && Carries(p, a, c) && Table({p, a, c})
    ensures History(cat, [Propose(d, p), Approve(d, p, a, c)])
    ensures After({}, [Propose(d, p)]) == {p} && After({}, [Propose(d, p), Approve(d, p, a, c)]) == {p, a, c}
    ensures Open({p}, p) && !Stale({p}, p)
  {
    NothingYet(cat, TripleFor(d, scope));
    assert {} + {p} == {p} && {p} + {a, c} == {p, a, c};
    TableSubset({p, a, c}, {p});
    ProposeNext(cat, d, scope, [], {}, p);
    assert [] + [Propose(d, p)] == [Propose(d, p)];
    ProposalsOpen({p}, p);
    ApproveNext(cat, d, scope, [Propose(d, p)], {p}, p, a, c);
    assert [Propose(d, p)] + [Approve(d, p, a, c)] == [Propose(d, p), Approve(d, p, a, c)];
  }

  lemma LostMiddle(d: Declaration, scope: Option<string>, p: Row, a: Row, c: Row)
    requires Moves(d, scope, p, d.promotion) && Carries(p, a, c)
    ensures Fold({p, a, c}, d, scope) == d.promotion.toPosition
    ensures forall x :: x in {p, a, c} ==> x.motionId == p.motionId
  {
    assert Changes({p, a, c}, TripleFor(d, scope)) == {c};
    LastIs({c}, c);
  }

  lemma LostEnd(cat: Catalog, d: Declaration, scope: Option<string>, p: Row, a: Row, c: Row, q: Row, b: Row, e: Row)
    requires Accepted(cat) && Setting(cat, d, scope) && TwoEdged(d) && Lost(d, scope, p, a, c, q, b, e)
    ensures History(cat, LostRun(d, p, a, c, q, b, e)) && After({}, LostRun(d, p, a, c, q, b, e)) == {p, a, c, q, b, e}
  {
    var start := [Propose(d, p), Approve(d, p, a, c)];
    TableSubset({p, a, c, q, b, e}, {p, a, c});
    LostStart(cat, d, scope, p, a, c);
    LostMiddle(d, scope, p, a, c);
    SixRows(p, a, c, q, b, e);
    DemoteNext(cat, d, scope, start, {p, a, c}, {p, a, c, q, b, e}, q, b, e);
    assert start + [Demote(d, q, b, e)] == LostRun(d, p, a, c, q, b, e);
  }

  lemma SixRows(p: Row, a: Row, c: Row, q: Row, b: Row, e: Row)
    ensures {p, a, c} + {q, b, e} == {p, a, c, q, b, e} && {p, a, c, q} + {b, e} == {p, a, c, q, b, e}
  {
  }

  /** Where the demotion's change sorts before the promotion's, it is not the
      newest, the position stays promoted, and the two changes form no path. */
  lemma LostPosition(d: Declaration, scope: Option<string>, p: Row, a: Row, c: Row, q: Row, b: Row, e: Row)
    requires Lost(d, scope, p, a, c, q, b, e) && Precedes(e, c) && d.promotion.fromPosition != d.promotion.toPosition
    ensures Fold({p, a, c, q, b, e}, d, scope) == d.promotion.toPosition
    ensures !Newest({p, a, c}, e)
    ensures TwoEdged(d) ==>
              Lists([e, c], Changes({p, a, c, q, b, e}, TripleFor(d, scope))) && !Path([e, c], d.initialPosition)
  {
    assert Changes({p, a, c, q, b, e}, TripleFor(d, scope)) == {c, e};
    LastIs({c, e}, c);
    assert Changes({p, a, c}, TripleFor(d, scope)) == {c};
    LastIs({c}, c);
    PrecedesAsymmetric(e, c);
    assert [e, c][0].fromPosition == d.demotion.fromPosition;
  }

  // ----- An approval of what has been overtaken -----

  function OvertakenRun(d: Declaration, p: Row, q: Row, a: Row, c: Row, b: Row, e: Row): seq<Action>
  {
    [Propose(d, p), Propose(d, q), Approve(d, p, a, c), Approve(d, q, b, e)]
  }

  /** Promotions p and q are proposed, then both approved, the change of p put
      before proposal q. */
  ghost predicate Overtaken(d: Declaration, scope: Option<string>, p: Row, q: Row, a: Row, c: Row, b: Row, e: Row)
  {
    && Moves(d, scope, p, d.promotion) && Moves(d, scope, q, d.promotion) && p.motionId != q.motionId
    && Carries(p, a, c) && Carries(q, b, e) && Precedes(c, q) && Precedes(c, e) && Table({p, q, a, c, b, e})
  }

  lemma OvertakenStart(cat: Catalog, d: Declaration, scope: Option<string>, p: Row, q: Row)
    requires Accepted(cat) && Setting(cat, d, scope)
    requires Moves(d, scope, p, d.promotion) && Moves(d, scope, q, d.promotion)
    requires p.motionId != q.motionId && Table({p, q})
    ensures History(cat, [Propose(d, p), Propose(d, q)])
    ensures After({}, [Propose(d, p)]) == {p} && After({}, [Propose(d, p), Propose(d, q)]) == {p, q}
    ensures Changes({p}, TripleFor(d, scope)) == {} && Changes({p, q}, TripleFor(d, scope)) == {}
    ensures Open({p, q}, p) && !Stale({p, q}, p)
  {
    NothingYet(cat, TripleFor(d, scope));
    assert {} + {p} == {p} && {p} + {q} == {p, q};
    TableSubset({p, q}, {p});
    ProposeNext(cat, d, scope, [], {}, p);
    assert [] + [Propose(d, p)] == [Propose(d, p)];
    ProposalsOpen({p}, p);
    ProposeNext(cat, d, scope, [Propose(d, p)], {p}, q);
    assert [Propose(d, p)] + [Propose(d, q)] == [Propose(d, p), Propose(d, q)];
    ProposalsOpen({p, q}, p);
  }

  /** The change of p, though committed after proposal q, sorts before it: q is
      not stale. */
  lemma OvertakenOpen(d: Declaration, scope: Option<string>, p: Row, q: Row, a: Row, c: Row, b: Row, e: Row)
    requires Overtaken(d, scope, p, q, a, c, b, e)
    ensures Open({p, q, a, c}, q) && !Stale({p, q, a, c}, q)
    ensures Latest({p, q, a, c}, TripleFor(d, scope)) == Some(c)
  {
    var t := {p, q, a, c};
    assert KindsOf(t, q.motionId) == {MotionProposed} by { assert q.event in KindsOf(t, q.motionId); }
    assert Changes(t, TripleOf(q)) == {c} && ChangesBefore(t, TripleOf(q), q.createdAt, q.id) == {c};
    LastIs({c}, c);
  }

  lemma OvertakenMiddle(cat: Catalog, d: Declaration, scope: Option<string>, p: Row, q: Row, a: Row, c: Row)
    requires Accepted(cat) && Setting(cat, d, scope)
    requires Moves(d, scope, p, d.promotion) && Moves(d, scope, q, d.promotion)
    requires p.motionId != q.motionId && Carries(p, a, c) && Table({p, q, a, c})
    ensures History(cat, [Propose(d, p), Propose(d, q), Approve(d, p, a, c)])
    ensures After({}, [Propose(d, p), Propose(d, q), Approve(d, p, a, c)]) == {p, q, a, c}
  {
    TableSubset({p, q, a, c}, {p, q});
    OvertakenStart(cat, d, scope, p, q);
    assert {p, q} + {a, c} == {p, q, a, c};
    ApproveNext(cat, d, scope, [Propose(d, p), Propose(d, q)], {p, q}, p, a, c);
    assert [Propose(d, p), Propose(d, q)] + [Approve(d, p, a, c)] ==
           [Propose(d, p), Propose(d, q), Approve(d, p, a, c)];
  }

  lemma OvertakenEnd(cat: Catalog, d: Declaration, scope: Option<string>, p: Row, q: Row, a: Row, c: Row, b: Row,
                     e: Row)
    requires Accepted(cat) && Setting(cat, d, scope) && Overtaken(d, scope, p, q, a, c, b, e)
    ensures History(cat, OvertakenRun(d, p, q, a, c, b, e))
    ensures After({}, OvertakenRun(d, p, q, a, c, b, e)) == {p, q, a, c, b, e}
  {
    var middle := [Propose(d, p), Propose(d, q), Approve(d, p, a, c)];
    TableSubset({p, q, a, c, b, e}, {p, q, a, c});
    OvertakenMiddle(cat, d, scope, p, q, a, c);
    SixRows(p, q, a, c, b, e);
    OvertakenOpen(d, scope, p, q, a, c, b, e);
    ApproveNext(cat, d, scope, middle, {p, q, a, c}, q, b, e);
    assert middle + [Approve(d, q, b, e)] == OvertakenRun(d, p, q, a, c, b, e);
  }

  /** Both changes leave the same position, so they are no path. */
  lemma OvertakenPath(d: Declaration, scope: Option<string>, p: Row, q: Row, a: Row, c: Row, b: Row, e: Row)
    requires d.promotion.fromPosition != d.promotion.toPosition && Overtaken(d, scope, p, q, a, c, b, e)
    ensures Lists([c, e], Changes({p, q, a, c, b, e}, TripleFor(d, scope))) && !Path([c, e], d.initialPosition)
  {
    assert Changes({p, q, a, c, b, e}, TripleFor(d, scope)) == {c, e};
    assert [c, e][1].fromPosition != [c, e][0].toPosition;
  }

  // ----- The same runs as calls of the service -----

  function PromotionRow(d: Declaration, scope: Option<string>, hash: Digest, data: Bytes, motionId: string,
                        stamp: Stamp): Row
  {
    ProposalRow(d, scope, d.promotion.fromPosition, d.promotion.toPosition, (RefFor(hash(data)), hash(data)), motionId,
                stamp, "op", None)
  }

  function DecisionRow(p: Row, kind: EventKind, stamp: Stamp): Row
  {
    Sibling(p, kind, stamp, "op", "why")
  }

  function DemotionRow(d: Declaration, scope: Option<string>, hash: Digest, data: Bytes, motionId: string,
                       kind: EventKind, stamp: Stamp): Row
  {
    var evidence := (RefFor(hash(data)), hash(data));
    var template := DemotionTemplate(d, scope, d.demotion.fromPosition, evidence, motionId, "op", "why");
    Sibling(template, kind, stamp, "op", "why")
  }

  /** `approve` writes for a stored, open promotion that is not stale. */
  lemma ApprovalWritten(d: Declaration, scope: Option<string>, t: set<Row>, p: Row, hash: Digest, data: Bytes,
                        files: Files, loaded: Loaded)
    requires Lookup(loaded, d.task) == Some(d) && Digests(hash) && Holds(hash, files, data)
    requires Table(t) && Open(t, p) && !Stale(t, p) && Moves(d, scope, p, d.promotion)
    requires p.evidenceSha256 == hash(data) && p.evidenceRef == RefFor(hash(data))
    ensures ApproveVerdict(t, p.motionId, hash, files, loaded) == Write
    ensures Find(t, p.motionId, MotionProposed) == Some(p)
  {
    OpenIff(t, p);
    FindIs(t, p);
    assert TripleOf(p).declarationVersion == d.version;
    VerifyExactly(hash, files, p.evidenceRef, p.evidenceSha256, data);
  }

  lemma PromotionWritten(cat: Catalog, d: Declaration, scope: Option<string>, t: set<Row>, data: Bytes, loaded: Loaded)
    requires Accepted(cat) && Setting(cat, d, scope) && Loads(cat, loaded, d)
    requires data != [] && Changes(t, TripleFor(d, scope)) == {}
    ensures ProposePrecheck(t, loaded, d.task, scope, d.promotion.toPosition, Some(data)) == Write
    ensures TransitionVerdict(t, d, scope, d.promotion.toPosition) == Write
    ensures Fold(t, d, scope) == d.promotion.fromPosition
  {
    NoChange(t, d, scope);
  }

  // ----- Both runs, at any two readings of which the later came first -----

  function LostRows(d: Declaration, scope: Option<string>, hash: Digest, data: Bytes, record: Bytes,
                    early: string, late: string): (r: seq<Row>)
    ensures |r| == 6
  {
    var p := PromotionRow(d, scope, hash, data, "m", Stamp("1", late));
    [p, DecisionRow(p, MotionApproved, Stamp("2", late)), DecisionRow(p, PositionChanged, Stamp("3", late)),
     DemotionRow(d, scope, hash, record, "n", MotionProposed, Stamp("4", early)),
     DemotionRow(d, scope, hash, record, "n", MotionApproved, Stamp("5", early)),
     DemotionRow(d, scope, hash, record, "n", PositionChanged, Stamp("6", early))]
  }

  function OvertakenRows(d: Declaration, scope: Option<string>, hash: Digest, data: Bytes,
                         early: string, late: string): (r: seq<Row>)
    ensures |r| == 6
  {
    var p := PromotionRow(d, scope, hash, data, "m", Stamp("1", early));
    var q := PromotionRow(d, scope, hash, data, "n", Stamp("2", late));
    [p, q,
     DecisionRow(p, MotionApproved, Stamp("3", early)), DecisionRow(p, PositionChanged, Stamp("4", early)),
     DecisionRow(q, MotionApproved, Stamp("5", late)), DecisionRow(q, PositionChanged, Stamp("6", late))]
  }

  predicate KnownPositions(d: Declaration)
  {
    && !d.promotion.fromPosition.OtherPosition? && !d.promotion.toPosition.OtherPosition?
    && !d.demotion.fromPosition.OtherPosition? && !d.demotion.toPosition.OtherPosition?
  }

  lemma AcceptedIsKnown(cat: Catalog, d: Declaration)
    requires Accepted(cat) && Declares(cat, d)
    ensures KnownPositions(d) && d.promotion.fromPosition != d.promotion.toPosition
  {
  }

  lemma LostRowsFit(d: Declaration, scope: Option<string>, hash: Digest, data: Bytes, record: Bytes,
                    early: string, late: string)
    requires KnownPositions(d) && Less(early, late)
    ensures var r := LostRows(d, scope, hash, data, record, early, late);
            Lost(d, scope, r[0], r[1], r[2], r[3], r[4], r[5]) && Precedes(r[5], r[2])
  {
  }

  lemma OvertakenRowsFit(d: Declaration, scope: Option<string>, hash: Digest, data: Bytes, early: string, late: string)
    requires KnownPositions(d) && Less(early, late)
    ensures var r := OvertakenRows(d, scope, hash, data, early, late);
            Overtaken(d, scope, r[0], r[1], r[2], r[3], r[4], r[5])
  {
  }

  /** Motion m projects to executed, with this target. */
  ghost predicate Shows(t: set<Row>, motionId: string, toPosition: Position)
  {
    && View(t, motionId).Some? && View(t, motionId).value.status == Executed
    && View(t, motionId).value.toPosition == toPosition
  }

  /** A promotion is approved, the clock steps back, and an emergency demotion
      follows: every call writes and the demotion projects to executed, yet its
      change is not the newest of its scope, the position folded afterwards is
      still the promoted one, and the two changes form no path. */
  lemma DemotionLost(cat: Catalog, d: Declaration, scope: Option<string>, loaded: Loaded, hash: Digest, data: Bytes,
                     record: Bytes, files: Files, between: Files, early: Timestamps.Reading, late: Timestamps.Reading)
    requires Accepted(cat) && Setting(cat, d, scope) && TwoEdged(d) && Loads(cat, loaded, d)
    requires Digests(hash) && data != [] && Holds(hash, files, data) && StepsBack(early, late)
    requires NoCollision(hash, files, between, record)
    ensures var r := LostRows(d, scope, hash, data, record, Timestamps.Format(early), Timestamps.Format(late));
            var run := LostRun(d, r[0], r[1], r[2], r[3], r[4], r[5]);
            && History(cat, run)
            && ProposePrecheck({}, loaded, d.task, scope, d.promotion.toPosition, Some(data)) == Write
            && Storing(hash, files, between, data).1 == Success((r[0].evidenceRef, r[0].evidenceSha256))
            && ApproveVerdict(After({}, [run[0]]), "m", hash, files, loaded) == Write
            && DemoteVerdict(After({}, [run[0], run[1]]), loaded, loaded, d.task, scope) == Write
            && Storing(hash, files, between, record).1 == Success((r[3].evidenceRef, r[3].evidenceSha256))
            && Shows(After({}, run), "n", d.demotion.toPosition)
            && !Newest(After({}, [run[0], run[1]]), run[2].c)
            && Fold(After({}, run), d, scope) == d.promotion.toPosition
            && Lists([run[2].c, run[1].c], Changes(After({}, run), TripleFor(d, scope)))
            && !Path([run[2].c, run[1].c], d.initialPosition)
  {
    var E, L := Timestamps.Format(early), Timestamps.Format(late);
    Timestamps.TextOrderIsTimeOrder(early, late);
    AcceptedIsKnown(cat, d);
    LostRowsFit(d, scope, hash, data, record, E, L);
    var r := LostRows(d, scope, hash, data, record, E, L);
    var p, a, c, q, b, e := r[0], r[1], r[2], r[3], r[4], r[5];
    StoringWrites(hash, files, between, data);
    StoringWrites(hash, files, between, record);
    LostCalls(cat, d, scope, loaded, hash, data, files, p, a, c, q, b, e);
    LostShape(cat, d, scope, p, a, c, q, b, e);
  }

  lemma LostShape(cat: Catalog, d: Declaration, scope: Option<string>, p: Row, a: Row, c: Row, q: Row, b: Row, e: Row)
    requires Accepted(cat) && Setting(cat, d, scope) && TwoEdged(d)
    requires d.promotion.fromPosition != d.promotion.toPosition
    requires Lost(d, scope, p, a, c, q, b, e) && Precedes(e, c)
    ensures !Newest(After({}, [Propose(d, p), Approve(d, p, a, c)]), e)
    ensures Lists([e, c], Changes(After({}, LostRun(d, p, a, c, q, b, e)), TripleFor(d, scope)))
    ensures !Path([e, c], d.initialPosition)
  {
    TableSubset({p, a, c, q, b, e}, {p, a, c});
    LostStart(cat, d, scope, p, a, c);
    LostEnd(cat, d, scope, p, a, c, q, b, e);
    LostPosition(d, scope, p, a, c, q, b, e);
  }

  lemma LostCalls(cat: Catalog, d: Declaration, scope: Option<string>, loaded: Loaded, hash: Digest, data: Bytes,
                  files: Files, p: Row, a: Row, c: Row, q: Row, b: Row, e: Row)
    requires Accepted(cat) && Setting(cat, d, scope) && TwoEdged(d) && Loads(cat, loaded, d)
    requires Digests(hash) && data != [] && Holds(hash, files, data)
    requires Lost(d, scope, p, a, c, q, b, e) && Precedes(e, c)
    requires p.evidenceSha256 == hash(data) && p.evidenceRef == RefFor(hash(data))
    ensures var run := LostRun(d, p, a, c, q, b, e);
            && History(cat, run)
            && ProposePrecheck({}, loaded, d.task, scope, d.promotion.toPosition, Some(data)) == Write
            && ApproveVerdict(After({}, [run[0]]), p.motionId, hash, files, loaded) == Write
            && DemoteVerdict(After({}, [run[0], run[1]]), loaded, loaded, d.task, scope) == Write
            && Shows(After({}, run), q.motionId, d.demotion.toPosition)
            && Fold(After({}, run), d, scope) == d.promotion.toPosition
  {
    LostEnd(cat, d, scope, p, a, c, q, b, e);
    TableSubset({p, a, c, q, b, e}, {p, a, c});
    TableSubset({p, a, c, q, b, e}, {p});
    LostStart(cat, d, scope, p, a, c);
    LostMiddle(d, scope, p, a, c);
    NothingYet(cat, TripleFor(d, scope));
    PromotionWritten(cat, d, scope, {}, data, loaded);
    ApprovalWritten(d, scope, {p}, p, hash, data, files, loaded);
    AcceptedIsKnown(cat, d);
    LostPosition(d, scope, p, a, c, q, b, e);
    FindIs({p, a, c, q, b, e}, q);
    FindIs({p, a, c, q, b, e}, e);
  }

  lemma OvertakenCalls(cat: Catalog, d: Declaration, scope: Option<string>, loaded: Loaded, hash: Digest, data: Bytes,
                       files: Files, p: Row, q: Row, a: Row, c: Row, b: Row, e: Row)
    requires Accepted(cat) && Setting(cat, d, scope) && Loads(cat, loaded, d)
    requires Digests(hash) && data != [] && Holds(hash, files, data) && Overtaken(d, scope, p, q, a, c, b, e)
    requires p.evidenceSha256 == q.evidenceSha256 == hash(data) && p.evidenceRef == q.evidenceRef == RefFor(hash(data))
    ensures var run := OvertakenRun(d, p, q, a, c, b, e);
            && ProposePrecheck({}, loaded, d.task, scope, d.promotion.toPosition, Some(data)) == Write
            && ProposePrecheck(After({}, [run[0]]), loaded, d.task, scope, d.promotion.toPosition, Some(data)) == Write
            && ApproveVerdict(After({}, [run[0], run[1]]), p.motionId, hash, files, loaded) == Write
            && ApproveVerdict(After({}, [run[0], run[1], run[2]]), q.motionId, hash, files, loaded) == Write
  {
    TableSubset({p, q, a, c, b, e}, {p, q});
    TableSubset({p, q, a, c, b, e}, {p, q, a, c});
    OvertakenStart(cat, d, scope, p, q);
    OvertakenOpen(d, scope, p, q, a, c, b, e);
    OvertakenMiddle(cat, d, scope, p, q, a, c);
    NothingYet(cat, TripleFor(d, scope));
    PromotionWritten(cat, d, scope, {}, data, loaded);
    PromotionWritten(cat, d, scope, {p}, data, loaded);
    ApprovalWritten(d, scope, {p, q}, p, hash, data, files, loaded);
    ApprovalWritten(d, scope, {p, q, a, c}, q, hash, data, files, loaded);
  }

  /** Two promotions are proposed, the clock steps back, the first is approved,
      then the second: every call writes and each change is the newest of its
      scope when it commits, yet both leave the same position.  The proposals were
      open at one position revision, and both are executed. */
  lemma OvertakenApproval(cat: Catalog, d: Declaration, scope: Option<string>, loaded: Loaded, hash: Digest,
                          data: Bytes, files: Files, between: Files, early: Timestamps.Reading,
                          late: Timestamps.Reading)
    requires Accepted(cat) && Setting(cat, d, scope) && Loads(cat, loaded, d)
    requires Digests(hash) && data != [] && Holds(hash, files, data) && StepsBack(early, late)
    ensures var r := OvertakenRows(d, scope, hash, data, Timestamps.Format(early), Timestamps.Format(late));
            var run := OvertakenRun(d, r[0], r[1], r[2], r[3], r[4], r[5]);
            && History(cat, run)
            && ProposePrecheck({}, loaded, d.task, scope, d.promotion.toPosition, Some(data)) == Write
            && ProposePrecheck(After({}, [run[0]]), loaded, d.task, scope, d.promotion.toPosition, Some(data)) == Write
            && ApproveVerdict(After({}, [run[0], run[1]]), "m", hash, files, loaded) == Write
            && ApproveVerdict(After({}, [run[0], run[1], run[2]]), "n", hash, files, loaded) == Write
            && Storing(hash, files, between, data).1 == Success((r[0].evidenceRef, r[0].evidenceSha256))
            && Rivals(After({}, [run[0], run[1]]), r[0], r[1])
            && Has(After({}, run), "m", PositionChanged) && Has(After({}, run), "n", PositionChanged)
            && Newest(After({}, [run[0], run[1]]), run[2].c) && Newest(After({}, [run[0], run[1], run[2]]), run[3].c)
            && Lists([run[2].c, run[3].c], Changes(After({}, run), TripleFor(d, scope)))
            && !Path([run[2].c, run[3].c], d.initialPosition)
  {
    var E, L := Timestamps.Format(early), Timestamps.Format(late);
    Timestamps.TextOrderIsTimeOrder(early, late);
    AcceptedIsKnown(cat, d);
    OvertakenRowsFit(d, scope, hash, data, E, L);
    var r := OvertakenRows(d, scope, hash, data, E, L);
    var p, q, a, c, b, e := r[0], r[1], r[2], r[3], r[4], r[5];
    OvertakenCalls(cat, d, scope, loaded, hash, data, files, p, q, a, c, b, e);
    OvertakenEnd(cat, d, scope, p, q, a, c, b, e);
    OvertakenPath(d, scope, p, q, a, c, b, e);
    OvertakenNewest(cat, d, scope, p, q, a, c, b, e);
    StoringWrites(hash, files, between, data);
    OvertakenRivals(cat, d, scope, p, q, a, c, b, e);
  }

  /** Two open proposals of one scope, made at one position revision. */
  ghost predicate Rivals(t: set<Row>, p: Row, q: Row)
  {
    Open(t, p) && Open(t, q) && p != q && TripleOf(p) == TripleOf(q) && RevisionAt(t, p) == RevisionAt(t, q)
  }

  lemma OvertakenRivals(cat: Catalog, d: Declaration, scope: Option<string>, p: Row, q: Row, a: Row, c: Row, b: Row,
                        e: Row)
    requires Accepted(cat) && Setting(cat, d, scope) && Overtaken(d, scope, p, q, a, c, b, e)
    ensures Rivals(After({}, [Propose(d, p), Propose(d, q)]), p, q)
    ensures Has({p, q, a, c, b, e}, p.motionId, PositionChanged) && Has({p, q, a, c, b, e}, q.motionId, PositionChanged)
  {
    TableSubset({p, q, a, c, b, e}, {p, q});
    OvertakenStart(cat, d, scope, p, q);
    ProposalsOpen({p, q}, q);
    assert ChangesBefore({p, q}, TripleOf(p), p.createdAt, p.id) == {};
    assert ChangesBefore({p, q}, TripleOf(q), q.createdAt, q.id) == {};
    assert c in {p, q, a, c, b, e} && e in {p, q, a, c, b, e};
  }

  lemma OvertakenNewest(cat: Catalog, d: Declaration, scope: Option<string>, p: Row, q: Row, a: Row, c: Row, b: Row,
                        e: Row)
    requires Accepted(cat) && Setting(cat, d, scope) && Overtaken(d, scope, p, q, a, c, b, e)
    ensures Newest(After({}, [Propose(d, p), Propose(d, q)]), c)
    ensures Newest(After({}, [Propose(d, p), Propose(d, q), Approve(d, p, a, c)]), e)
  {
    TableSubset({p, q, a, c, b, e}, {p, q});
    TableSubset({p, q, a, c, b, e}, {p, q, a, c});
    OvertakenStart(cat, d, scope, p, q);
    NoChange({p, q}, d, scope);
    OvertakenMiddle(cat, d, scope, p, q, a, c);
    OvertakenOpen(d, scope, p, q, a, c, b, e);
  }

  const BARE := Placement(Blocking, [])

  const TASK := Declaration("refund", 1, "active", Hitl, [], map[Hitl := BARE, Hotl := BARE],
                            Edge(Hitl, Hotl), Edge(Hotl, Hitl), None)

  /** Both families have members: a declaration, a load, files and two readings. */
  lemma MembersExist(hash: Digest, data: Bytes)
    ensures var cat: Catalog := map[("refund", 1) := TASK];
            Accepted(cat) && Setting(cat, TASK, None) && TwoEdged(TASK) && Loads(cat, Some(map["refund" := TASK]), TASK)
    ensures Holds(hash, map[hash(data) := data], data)
    ensures StepsBack(Timestamps.Reading(2026, 3, 29, 1, 0, 0, 0), Timestamps.Reading(2026, 3, 29, 1, 0, 0, 1))
  {
  }
}
