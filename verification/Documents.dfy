/** JSON documents as values: where a token leads, and the laws of replacing
    what a list of tokens resolves to. */
module Documents {
  import opened Text

  datatype Json = Scalar(text: string) | List(items: seq<Json>) | Dict(members: map<string, Json>)

  datatype Loc = Index(i: nat) | Key(k: string)

  /** What `int(token)` yields, None for a ValueError. */
  type IntOf = string -> Option<int>

  function Locs(v: Json): set<Loc>
  {
    match v
    case Scalar(_) => {}
    case List(items) => set i: nat | i < |items| :: Index(i)
    case Dict(members) => set k | k in members :: Key(k)
  }

  function Child(v: Json, l: Loc): (c: Json)
    requires l in Locs(v)
    ensures c < v
  {
    match v
    case List(items) => items[l.i]
    case Dict(members) => members[l.k]
  }

  function WithChild(v: Json, l: Loc, x: Json): (w: Json)
    requires l in Locs(v)
    ensures Locs(w) == Locs(v)
    ensures forall m :: m in Locs(w) ==> Child(w, m) == if m == l then x else Child(v, m)
  {
    match v
    case List(items) => List(items[l.i := x])
    case Dict(members) => Dict(members[l.k := x])
  }

  /** Python indexing: a negative index counts from the end. */
  function Normalized(i: int, n: nat): Option<nat>
  {
    if 0 <= i < n then Some(i) else if i < 0 && i + n >= 0 then Some(i + n) else None
  }

  /** Where `node[token]` is, when it is anywhere. */
  function Locate(toInt: IntOf, v: Json, token: string): (l: Option<Loc>)
    ensures l.Some? ==> l.value in Locs(v)
  {
    match v
    case Scalar(_) => None
    case List(items) =>
      (match toInt(token)
       case None => None
       case Some(i) => match Normalized(i, |items|) case None => None case Some(p) => Some(Index(p)))
    case Dict(members) => if token in members then Some(Key(token)) else None
  }

  function Resolve(toInt: IntOf, v: Json, tokens: seq<string>): Option<Json>
    decreases |tokens|
  {
    if tokens == [] then Some(v)
    else
      match Locate(toInt, v, tokens[0])
      case None => None
      case Some(l) => Resolve(toInt, Child(v, l), tokens[1..])
  }

  function ReplaceAt(toInt: IntOf, v: Json, tokens: seq<string>, x: Json): Json
    requires Resolve(toInt, v, tokens).Some?
    decreases |tokens|
  {
    if tokens == [] then x
    else
      var l := Locate(toInt, v, tokens[0]).value;
      WithChild(v, l, ReplaceAt(toInt, Child(v, l), tokens[1..], x))
  }

  /** Two token lists part ways: at some node both have reached, p leads on, and q
      leads elsewhere or nowhere. */
  predicate Diverge(toInt: IntOf, v: Json, p: seq<string>, q: seq<string>)
    decreases |p|
  {
    p != [] && q != [] && Locate(toInt, v, p[0]).Some? &&
    (Locate(toInt, v, p[0]) != Locate(toInt, v, q[0]) ||
     Diverge(toInt, Child(v, Locate(toInt, v, p[0]).value), p[1..], q[1..]))
  }

  lemma LocateKept(toInt: IntOf, v: Json, l: Loc, x: Json, token: string)
    requires l in Locs(v)
    ensures Locate(toInt, WithChild(v, l, x), token) == Locate(toInt, v, token)
  {
  }

  /** Reading what was just put there. */
  lemma {:induction false} ReadBack(toInt: IntOf, v: Json, p: seq<string>, x: Json)
    requires Resolve(toInt, v, p).Some?
    ensures Resolve(toInt, ReplaceAt(toInt, v, p, x), p) == Some(x)
    decreases |p|
  {
    if p != [] {
      var l := Locate(toInt, v, p[0]).value;
      ReadBack(toInt, Child(v, l), p[1..], x);
      LocateKept(toInt, v, l, ReplaceAt(toInt, Child(v, l), p[1..], x), p[0]);
    }
  }

  /** Everything that parts ways with the edited place reads as before. */
  lemma {:induction false} ElsewhereKept(toInt: IntOf, v: Json, p: seq<string>, x: Json, q: seq<string>)
    requires Resolve(toInt, v, p).Some? && Diverge(toInt, v, p, q)
    ensures Resolve(toInt, ReplaceAt(toInt, v, p, x), q) == Resolve(toInt, v, q)
    decreases |p|
  {
    var l := Locate(toInt, v, p[0]).value;
    var y := ReplaceAt(toInt, Child(v, l), p[1..], x);
    LocateKept(toInt, v, l, y, q[0]);
    if Locate(toInt, v, q[0]) == Some(l) { ElsewhereKept(toInt, Child(v, l), p[1..], x, q[1..]); }
  }

  lemma WithChildTwice(v: Json, l: Loc, x: Json, y: Json)
    requires l in Locs(v)
    ensures WithChild(WithChild(v, l, x), l, y) == WithChild(v, l, y)
    ensures WithChild(v, l, Child(v, l)) == v
  {
    match v
    case List(items) => assert items[l.i := x][l.i := y] == items[l.i := y] && items[l.i := items[l.i]] == items;
    case Dict(members) =>
      assert members[l.k := x][l.k := y] == members[l.k := y] && members[l.k := members[l.k]] == members;
  }

  /** A second replacement forgets the first, and putting back what was there
      restores the document. */
  lemma {:induction false} ReplaceTwice(toInt: IntOf, v: Json, p: seq<string>, x: Json, y: Json)
    requires Resolve(toInt, v, p).Some?
    ensures Resolve(toInt, ReplaceAt(toInt, v, p, x), p).Some?
    ensures ReplaceAt(toInt, ReplaceAt(toInt, v, p, x), p, y) == ReplaceAt(toInt, v, p, y)
    ensures ReplaceAt(toInt, v, p, Resolve(toInt, v, p).value) == v
    decreases |p|
  {
    ReadBack(toInt, v, p, x);
    if p != [] {
      var l := Locate(toInt, v, p[0]).value;
      var c := Child(v, l);
      ReplaceTwice(toInt, c, p[1..], x, y);
      LocateKept(toInt, v, l, ReplaceAt(toInt, c, p[1..], x), p[0]);
      WithChildTwice(v, l, ReplaceAt(toInt, c, p[1..], x), ReplaceAt(toInt, c, p[1..], y));
    }
  }

  // ----- The edits of one container -----

  datatype EditError = MutationFailed | Uncaught

  /** Where `list.insert` puts an element: out-of-range indices are clamped. */
  function Slot(i: int, n: nat): (s: nat)
    ensures s <= n
  {
    if i >= n then n else if i >= 0 then i else if i + n >= 0 then i + n else 0
  }

  function Inserted(items: seq<Json>, at: nat, x: Json): seq<Json>
    requires at <= |items|
  {
    items[..at] + [x] + items[at..]
  }

  function Assigned(toInt: IntOf, v: Json, token: string, x: Json): Result<Json, EditError>
  {
    match v
    case Dict(members) => Success(Dict(members[token := x]))
    case List(items) =>
      if token == "-" then Success(List(items + [x]))
      else
        (match toInt(token)
         case None => Failure(Uncaught)
         case Some(i) => Success(List(Inserted(items, Slot(i, |items|), x))))
    case Scalar(_) => Failure(Uncaught)
  }

  function Removed(toInt: IntOf, v: Json, token: string): Result<Json, EditError>
  {
    match Locate(toInt, v, token)
    case None => Failure(MutationFailed)
    case Some(l) =>
      match v
      case List(items) => Success(List(items[..l.i] + items[l.i + 1..]))
      case Dict(members) => Success(Dict(members - {token}))
  }

  // ----- Frame laws of set and remove -----

  function SetAt(toInt: IntOf, v: Json, p: seq<string>, token: string, x: Json): Result<Json, EditError>
  {
    match Resolve(toInt, v, p)
    case None => Failure(MutationFailed)
    case Some(c) =>
      match Assigned(toInt, c, token, x)
      case Failure(e) => Failure(e)
      case Success(c') => Success(ReplaceAt(toInt, v, p, c'))
  }

  function RemoveAt(toInt: IntOf, v: Json, p: seq<string>, token: string): Result<Json, EditError>
  {
    match Resolve(toInt, v, p)
    case None => Failure(MutationFailed)
    case Some(c) =>
      match Removed(toInt, c, token)
      case Failure(e) => Failure(e)
      case Success(c') => Success(ReplaceAt(toInt, v, p, c'))
  }

  lemma {:induction false} ResolveSplit(toInt: IntOf, v: Json, p: seq<string>, q: seq<string>)
    ensures Resolve(toInt, v, p + q) ==
              match Resolve(toInt, v, p) case None => None case Some(c) => Resolve(toInt, c, q)
    decreases |p|
  {
    if p == [] {
      assert p + q == q;
    } else {
      assert (p + q)[1..] == p[1..] + q;
      if Locate(toInt, v, p[0]).Some? { ResolveSplit(toInt, Child(v, Locate(toInt, v, p[0]).value), p[1..], q); }
    }
  }

  /** After setting an object member it reads as the value, and its siblings, and
      whatever parts ways with the object, read as before. */
  lemma SetMember(toInt: IntOf, v: Json, p: seq<string>, token: string, x: Json)
    requires Resolve(toInt, v, p).Some? && Resolve(toInt, v, p).value.Dict?
    ensures var r := SetAt(toInt, v, p, token, x);
            && r.Success?
            && Resolve(toInt, r.value, p + [token]) == Some(x)
            && (forall other, rest :: other != token ==>
                  Resolve(toInt, r.value, p + ([other] + rest)) == Resolve(toInt, v, p + ([other] + rest)))
            && (forall q :: Diverge(toInt, v, p, q) ==> Resolve(toInt, r.value, q) == Resolve(toInt, v, q))
  {
    var c := Resolve(toInt, v, p).value;
    var c' := Dict(c.members[token := x]);
    var r := ReplaceAt(toInt, v, p, c');
    ReadBack(toInt, v, p, c');
    ResolveSplit(toInt, r, p, [token]);
    assert [token][1..] == [] && Resolve(toInt, x, []) == Some(x);
    forall other, rest | other != token
      ensures Resolve(toInt, r, p + ([other] + rest)) == Resolve(toInt, v, p + ([other] + rest))
    {
      SiblingKept(toInt, v, p, token, x, other, rest);
    }
    forall q | Diverge(toInt, v, p, q) ensures Resolve(toInt, r, q) == Resolve(toInt, v, q) {
      ElsewhereKept(toInt, v, p, c', q);
    }
  }

  lemma SiblingKept(toInt: IntOf, v: Json, p: seq<string>, token: string, x: Json, other: string, rest: seq<string>)
    requires Resolve(toInt, v, p).Some? && Resolve(toInt, v, p).value.Dict? && other != token
    ensures SetAt(toInt, v, p, token, x).Success?
    ensures Resolve(toInt, SetAt(toInt, v, p, token, x).value, p + ([other] + rest)) ==
              Resolve(toInt, v, p + ([other] + rest))
  {
    var c := Resolve(toInt, v, p).value;
    var c' := Dict(c.members[token := x]);
    ReadBack(toInt, v, p, c');
    ResolveSplit(toInt, ReplaceAt(toInt, v, p, c'), p, [other] + rest);
    ResolveSplit(toInt, v, p, [other] + rest);
    assert ([other] + rest)[1..] == rest;
  }

  lemma PutBackIff(toInt: IntOf, v: Json, p: seq<string>, y: Json)
    requires Resolve(toInt, v, p).Some?
    ensures ReplaceAt(toInt, v, p, y) == v <==> Resolve(toInt, v, p) == Some(y)
  {
    ReadBack(toInt, v, p, y);
    ReplaceTwice(toInt, v, p, y, y);
  }

  lemma MemberBackIff(members: map<string, Json>, token: string, x: Json)
    ensures members[token := x] - {token} == members <==> token !in members
  {
    assert token !in members[token := x] - {token};
  }

  /** Removing the member again restores the document if and only if the object
      did not have it before: `set` keeps no trace of what it replaced. */
  lemma RemoveUndoesSetIff(toInt: IntOf, v: Json, p: seq<string>, token: string, x: Json)
    requires Resolve(toInt, v, p).Some? && Resolve(toInt, v, p).value.Dict?
    ensures SetAt(toInt, v, p, token, x).Success?
    ensures RemoveAt(toInt, SetAt(toInt, v, p, token, x).value, p, token) == Success(v) <==>
              token !in Resolve(toInt, v, p).value.members
  {
    var c := Resolve(toInt, v, p).value;
    var c' := Dict(c.members[token := x]);
    var back := Dict(c'.members - {token});
    ReadBack(toInt, v, p, c');
    ReplaceTwice(toInt, v, p, c', back);
    PutBackIff(toInt, v, p, back);
    MemberBackIff(c.members, token, x);
  }

  lemma InsertedShifts(items: seq<Json>, i: nat, x: Json)
    requires i <= |items|
    ensures var after := Inserted(items, i, x);
            && |after| == |items| + 1 && after[i] == x
            && (forall k :: 0 <= k < i ==> after[k] == items[k])
            && (forall k :: i <= k < |items| ==> after[k + 1] == items[k])
            && after[..i] + after[i + 1..] == items
  {
  }

  /** Setting at an in-range array index inserts there and shifts the tail, and
      removing at that index restores the document. */
  lemma SetElement(toInt: IntOf, v: Json, p: seq<string>, token: string, x: Json)
    requires Resolve(toInt, v, p).Some? && Resolve(toInt, v, p).value.List? && token != "-"
    requires toInt(token).Some? && 0 <= toInt(token).value <= |Resolve(toInt, v, p).value.items|
    ensures var r := SetAt(toInt, v, p, token, x);
            var before, i := Resolve(toInt, v, p).value.items, toInt(token).value;
            && r.Success?
            && Resolve(toInt, r.value, p).Some? && Resolve(toInt, r.value, p).value.List?
            && (var after := Resolve(toInt, r.value, p).value.items;
                && |after| == |before| + 1 && after[i] == x
                && (forall k :: 0 <= k < i ==> after[k] == before[k])
                && (forall k :: i <= k < |before| ==> after[k + 1] == before[k]))
            && (forall q :: Diverge(toInt, v, p, q) ==> Resolve(toInt, r.value, q) == Resolve(toInt, v, q))
            && RemoveAt(toInt, r.value, p, token) == Success(v)
  {
    var c := Resolve(toInt, v, p).value;
    var i := toInt(token).value;
    var c' := List(Inserted(c.items, i, x));
    ReadBack(toInt, v, p, c');
    forall q | Diverge(toInt, v, p, q) ensures Resolve(toInt, ReplaceAt(toInt, v, p, c'), q) == Resolve(toInt, v, q) {
      ElsewhereKept(toInt, v, p, c', q);
    }
    InsertedShifts(c.items, i, x);
    ReplaceTwice(toInt, v, p, c', c);
  }

  /** The elements after inserting x by index i and deleting by index i again. */
  function InsertedThenRemoved(items: seq<Json>, i: int, x: Json): Option<seq<Json>>
  {
    var after := Inserted(items, Slot(i, |items|), x);
    match Normalized(i, |after|)
    case None => None
    case Some(k) => Some(after[..k] + after[k + 1..])
  }

  lemma RemovedJustAfter(items: seq<Json>, at: nat, x: Json)
    requires at < |items|
    ensures var after := Inserted(items, at, x);
            after[..at + 1] + after[at + 2..] == items[at := x]
  {
  }

  lemma InsertedThenRemovedIff(items: seq<Json>, i: int, x: Json)
    ensures var n := |items|;
            InsertedThenRemoved(items, i, x) == Some(items) <==>
              0 <= i <= n || i == -(n + 1) || (-n <= i < 0 && items[i + n] == x)
  {
    var n, at := |items|, Slot(i, |items|);
    if -n <= i < 0 {
      RemovedJustAfter(items, at, x);
      assert items[at := x] == items <==> items[at] == x by { assert items[at := x][at] == x; }
    } else {
      InsertedShifts(items, at, x);
    }
  }

  lemma SetThenRemove(toInt: IntOf, v: Json, p: seq<string>, token: string, x: Json)
    requires Resolve(toInt, v, p).Some? && Resolve(toInt, v, p).value.List? && token != "-" && toInt(token).Some?
    ensures SetAt(toInt, v, p, token, x).Success?
    ensures RemoveAt(toInt, SetAt(toInt, v, p, token, x).value, p, token) ==
              match InsertedThenRemoved(Resolve(toInt, v, p).value.items, toInt(token).value, x)
              case None => Failure(MutationFailed)
              case Some(back) => Success(ReplaceAt(toInt, v, p, List(back)))
  {
    var items, i := Resolve(toInt, v, p).value.items, toInt(token).value;
    var c' := List(Inserted(items, Slot(i, |items|), x));
    ReadBack(toInt, v, p, c');
    if InsertedThenRemoved(items, i, x).Some? {
      ReplaceTwice(toInt, v, p, c', List(InsertedThenRemoved(items, i, x).value));
    }
  }

  /** Setting at any integer index and removing at it again restores the document
      if and only if both calls mean the same place, or the value set was there
      already: counted from the end, the index removes the element after it. */
  lemma RemoveUndoesInsertIff(toInt: IntOf, v: Json, p: seq<string>, token: string, x: Json)
    requires Resolve(toInt, v, p).Some? && Resolve(toInt, v, p).value.List? && token != "-" && toInt(token).Some?
    ensures SetAt(toInt, v, p, token, x).Success?
    ensures var items, i := Resolve(toInt, v, p).value.items, toInt(token).value;
            var n := |items|;
            RemoveAt(toInt, SetAt(toInt, v, p, token, x).value, p, token) == Success(v) <==>
              0 <= i <= n || i == -(n + 1) || (-n <= i < 0 && items[i + n] == x)
  {
    var items, i := Resolve(toInt, v, p).value.items, toInt(token).value;
    SetThenRemove(toInt, v, p, token, x);
    InsertedThenRemovedIff(items, i, x);
    if InsertedThenRemoved(items, i, x).Some? {
      PutBackIff(toInt, v, p, List(InsertedThenRemoved(items, i, x).value));
    }
  }

  /** Where one more token leads: to the member of that name, or to the element at
      that index, counted from the end when it is negative; else nowhere. */
  lemma OneToken(toInt: IntOf, v: Json, p: seq<string>, token: string)
    requires Resolve(toInt, v, p).Some?
    ensures var c, r := Resolve(toInt, v, p).value, Resolve(toInt, v, p + [token]);
            && (c.Scalar? ==> r == None)
            && (c.Dict? ==> r == if token in c.members then Some(c.members[token]) else None)
            && (c.List? && toInt(token) == None ==> r == None)
            && (c.List? && toInt(token).Some? ==>
                  var n, i := |c.items|, toInt(token).value;
                  && (0 <= i < n ==> r == Some(c.items[i])) && (-n <= i < 0 ==> r == Some(c.items[n + i]))
                  && (i < -n || n <= i ==> r == None))
  {
    ResolveSplit(toInt, v, p, [token]);
    assert [token][1..] == [];
  }

  /** Setting at "-" appends. */
  lemma SetLast(toInt: IntOf, v: Json, p: seq<string>, x: Json)
    requires Resolve(toInt, v, p).Some? && Resolve(toInt, v, p).value.List?
    ensures var r := SetAt(toInt, v, p, "-", x);
            var before := Resolve(toInt, v, p).value.items;
            && r.Success?
            && Resolve(toInt, r.value, p).Some? && Resolve(toInt, r.value, p).value.List?
            && (var after := Resolve(toInt, r.value, p).value.items;
                && |after| == |before| + 1 && after[|before|] == x
                && forall k :: 0 <= k < |before| ==> after[k] == before[k])
            && (forall q :: Diverge(toInt, v, p, q) ==> Resolve(toInt, r.value, q) == Resolve(toInt, v, q))
  {
    var c' := List(Resolve(toInt, v, p).value.items + [x]);
    ReadBack(toInt, v, p, c');
    forall q | Diverge(toInt, v, p, q) ensures Resolve(toInt, ReplaceAt(toInt, v, p, c'), q) == Resolve(toInt, v, q) {
      ElsewhereKept(toInt, v, p, c', q);
    }
  }

  /** Setting at any integer index inserts before the element of that index, counted
      from the end when it is negative, and at the nearer end when there is none. */
  lemma SetAnywhere(toInt: IntOf, v: Json, p: seq<string>, token: string, x: Json)
    requires Resolve(toInt, v, p).Some? && Resolve(toInt, v, p).value.List? && token != "-" && toInt(token).Some?
    ensures var r := SetAt(toInt, v, p, token, x);
            var before, i := Resolve(toInt, v, p).value.items, toInt(token).value;
            var n := |before|;
            var at := if i > n then n else if i >= 0 then i else if n + i >= 0 then n + i else 0;
            && r.Success?
            && Resolve(toInt, r.value, p).Some? && Resolve(toInt, r.value, p).value.List?
            && (var after := Resolve(toInt, r.value, p).value.items;
                && |after| == n + 1 && after[at] == x
                && (forall k :: 0 <= k < at ==> after[k] == before[k])
                && (forall k :: at <= k < n ==> after[k + 1] == before[k]))
            && (forall q :: Diverge(toInt, v, p, q) ==> Resolve(toInt, r.value, q) == Resolve(toInt, v, q))
  {
    var items, i := Resolve(toInt, v, p).value.items, toInt(token).value;
    var c' := List(Inserted(items, Slot(i, |items|), x));
    InsertedShifts(items, Slot(i, |items|), x);
    ReadBack(toInt, v, p, c');
    forall q | Diverge(toInt, v, p, q) ensures Resolve(toInt, ReplaceAt(toInt, v, p, c'), q) == Resolve(toInt, v, q) {
      ElsewhereKept(toInt, v, p, c', q);
    }
  }

  /** Removal fails, with the promised error, exactly where its path does not resolve. */
  lemma RemoveFailsIff(toInt: IntOf, v: Json, p: seq<string>, token: string)
    ensures RemoveAt(toInt, v, p, token).Failure? <==> Resolve(toInt, v, p + [token]) == None
    ensures RemoveAt(toInt, v, p, token).Failure? ==> RemoveAt(toInt, v, p, token) == Failure(MutationFailed)
  {
    ResolveSplit(toInt, v, p, [token]);
    assert [token][1..] == [];
  }

  /** After the container at p became c', what p leads through reads in c', and
      whatever parts ways with p reads as before. */
  lemma ContainerEdited(toInt: IntOf, v: Json, p: seq<string>, c': Json, q: seq<string>)
    requires Resolve(toInt, v, p).Some?
    ensures Resolve(toInt, ReplaceAt(toInt, v, p, c'), p + q) == Resolve(toInt, c', q)
    ensures Diverge(toInt, v, p, q) ==> Resolve(toInt, ReplaceAt(toInt, v, p, c'), q) == Resolve(toInt, v, q)
  {
    ReadBack(toInt, v, p, c');
    ResolveSplit(toInt, ReplaceAt(toInt, v, p, c'), p, q);
    if Diverge(toInt, v, p, q) { ElsewhereKept(toInt, v, p, c', q); }
  }

  /** After removing an object member nothing under it resolves; its siblings, and
      whatever parts ways with the object, read as before. */
  lemma RemoveMember(toInt: IntOf, v: Json, p: seq<string>, token: string)
    requires Resolve(toInt, v, p).Some? && Resolve(toInt, v, p).value.Dict?
    requires token in Resolve(toInt, v, p).value.members
    ensures var r := RemoveAt(toInt, v, p, token);
            && r.Success?
            && (forall rest :: Resolve(toInt, r.value, p + ([token] + rest)) == None)
            && (forall other, rest :: other != token ==>
                  Resolve(toInt, r.value, p + ([other] + rest)) == Resolve(toInt, v, p + ([other] + rest)))
            && (forall q :: Diverge(toInt, v, p, q) ==> Resolve(toInt, r.value, q) == Resolve(toInt, v, q))
  {
    var c := Resolve(toInt, v, p).value;
    var c' := Dict(c.members - {token});
    var r := ReplaceAt(toInt, v, p, c');
    forall rest ensures Resolve(toInt, r, p + ([token] + rest)) == None {
      ContainerEdited(toInt, v, p, c', [token] + rest);
    }
    forall other, rest | other != token
      ensures Resolve(toInt, r, p + ([other] + rest)) == Resolve(toInt, v, p + ([other] + rest))
    {
      ContainerEdited(toInt, v, p, c', [other] + rest);
      ResolveSplit(toInt, v, p, [other] + rest);
      assert ([other] + rest)[1..] == rest;
    }
    forall q | Diverge(toInt, v, p, q) ensures Resolve(toInt, r, q) == Resolve(toInt, v, q) {
      ContainerEdited(toInt, v, p, c', q);
    }
  }

  lemma RemovalShifts(items: seq<Json>, i: nat)
    requires i < |items|
    ensures var after := items[..i] + items[i + 1..];
            && |after| == |items| - 1
            && (forall k :: 0 <= k < i ==> after[k] == items[k])
            && (forall k :: i <= k < |after| ==> after[k] == items[k + 1])
  {
  }

  /** Removing an array element, by an index that may count from the end, closes
      the gap: what was before it stays, what was after it moves down by one. */
  lemma RemoveElement(toInt: IntOf, v: Json, p: seq<string>, token: string)
    requires Resolve(toInt, v, p).Some? && Resolve(toInt, v, p).value.List?
    requires toInt(token).Some?
    requires var n := |Resolve(toInt, v, p).value.items|; -n <= toInt(token).value < n
    ensures var r := RemoveAt(toInt, v, p, token);
            var before, i := Resolve(toInt, v, p).value.items, toInt(token).value;
            var at := if i < 0 then i + |before| else i;
            && r.Success?
            && Resolve(toInt, r.value, p).Some? && Resolve(toInt, r.value, p).value.List?
            && (var after := Resolve(toInt, r.value, p).value.items;
                && |after| == |before| - 1
                && (forall k :: 0 <= k < at ==> after[k] == before[k])
                && (forall k :: at <= k < |after| ==> after[k] == before[k + 1]))
            && (forall q :: Diverge(toInt, v, p, q) ==> Resolve(toInt, r.value, q) == Resolve(toInt, v, q))
  {
    var c := Resolve(toInt, v, p).value;
    var at := Normalized(toInt(token).value, |c.items|).value;
    var c' := List(c.items[..at] + c.items[at + 1..]);
    RemovalShifts(c.items, at);
    ReadBack(toInt, v, p, c');
    forall q | Diverge(toInt, v, p, q) ensures Resolve(toInt, ReplaceAt(toInt, v, p, c'), q) == Resolve(toInt, v, q) {
      ContainerEdited(toInt, v, p, c', q);
    }
  }
}
