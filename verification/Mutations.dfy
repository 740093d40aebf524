/** Applying a case's mutations to a copy of its base: Python objects as cells
    of one mutable memory, edited in place through references. */
module Mutations {
  import opened Text
  import opened Documents
  import opened Pointers

  datatype Cell = ScalarCell(text: string) | ListCell(items: seq<nat>) | DictCell(members: map<string, nat>)

  type Cells = map<nat, Cell>

  function CellLocs(c: Cell): set<Loc>
  {
    match c
    case ScalarCell(_) => {}
    case ListCell(items) => set i: nat | i < |items| :: Index(i)
    case DictCell(members) => set k | k in members :: Key(k)
  }

  function CellChild(c: Cell, l: Loc): nat
    requires l in CellLocs(c)
  {
    match c
    case ListCell(items) => items[l.i]
    case DictCell(members) => members[l.k]
  }

  predicate SameShape(c: Cell, v: Json)
  {
    match (c, v)
    case (ScalarCell(s), Scalar(t)) => s == t
    case (ListCell(_), List(_)) => true
    case (DictCell(_), Dict(_)) => true
    case _ => false
  }

  /** The cells the document v at address a is made of. */
  ghost function Foot(cells: Cells, a: nat, v: Json): set<nat>
    decreases v
  {
    {a} + set l, x | l in Locs(v) && a in cells && l in CellLocs(cells[a]) &&
      x in Foot(cells, CellChild(cells[a], l), Child(v, l)) :: x
  }

  ghost predicate Subtree(cells: Cells, a: nat, v: Json, l: Loc)
    requires l in Locs(v) && a in cells && l in CellLocs(cells[a])
    decreases v, 0
  {
    Tree(cells, CellChild(cells[a], l), Child(v, l)) && a !in Foot(cells, CellChild(cells[a], l), Child(v, l))
  }

  ghost predicate Apart(cells: Cells, a: nat, v: Json, l: Loc, m: Loc)
    requires l in Locs(v) && m in Locs(v) && a in cells && l in CellLocs(cells[a]) && m in CellLocs(cells[a])
  {
    Foot(cells, CellChild(cells[a], l), Child(v, l)) !! Foot(cells, CellChild(cells[a], m), Child(v, m))
  }

  /** Address a holds document v as a tree: no cell is shared. */
  ghost predicate Tree(cells: Cells, a: nat, v: Json)
    decreases v, 1
  {
    && a in cells && SameShape(cells[a], v) && CellLocs(cells[a]) == Locs(v)
    && (forall l {:trigger Subtree(cells, a, v, l)} :: l in Locs(v) ==> Subtree(cells, a, v, l))
    && (forall l, m {:trigger Apart(cells, a, v, l, m)} ::
          l in Locs(v) && m in Locs(v) && l != m ==> Apart(cells, a, v, l, m))
  }

  ghost predicate Agree(cells: Cells, cells': Cells, s: set<nat>)
  {
    forall x :: x in s ==> x in cells && x in cells' && cells'[x] == cells[x]
  }

  lemma ChildFoot(cells: Cells, a: nat, v: Json, l: Loc)
    requires l in Locs(v) && a in cells && l in CellLocs(cells[a])
    ensures Foot(cells, CellChild(cells[a], l), Child(v, l)) <= Foot(cells, a, v)
  {
  }

  lemma {:induction false} FootAllocated(cells: Cells, a: nat, v: Json)
    requires Tree(cells, a, v)
    ensures Foot(cells, a, v) <= cells.Keys
    decreases v
  {
    forall l | l in Locs(v) ensures Foot(cells, CellChild(cells[a], l), Child(v, l)) <= cells.Keys {
      assert Subtree(cells, a, v, l);
      FootAllocated(cells, CellChild(cells[a], l), Child(v, l));
    }
  }

  /** A document depends on its own cells only. */
  lemma {:induction false} Frame(cells: Cells, cells': Cells, a: nat, v: Json)
    requires Tree(cells, a, v) && Agree(cells, cells', Foot(cells, a, v))
    ensures Tree(cells', a, v) && Foot(cells', a, v) == Foot(cells, a, v)
    decreases v
  {
    assert a in Foot(cells, a, v);
    forall l | l in Locs(v)
      ensures Subtree(cells', a, v, l)
      ensures Foot(cells', CellChild(cells[a], l), Child(v, l)) == Foot(cells, CellChild(cells[a], l), Child(v, l))
    {
      assert Subtree(cells, a, v, l);
      ChildFoot(cells, a, v, l);
      Frame(cells, cells', CellChild(cells[a], l), Child(v, l));
    }
    forall l, m | l in Locs(v) && m in Locs(v) && l != m ensures Apart(cells', a, v, l, m) {
      assert Apart(cells, a, v, l, m);
    }
  }

  // ----- Editing one cell -----

  /** Each place of the new container holds what some place of the old one held,
      or the new document x at f; no two hold the same. */
  ghost predicate Rearranged(c: Cell, v: Json, c': Cell, v': Json, f: nat, x: Json, from: Loc -> Option<Loc>)
    requires CellLocs(c) == Locs(v)
  {
    && SameShape(c', v') && CellLocs(c') == Locs(v')
    && (forall l :: l in Locs(v') ==>
          match from(l)
          case None => CellChild(c', l) == f && Child(v', l) == x
          case Some(m) => m in Locs(v) && CellChild(c', l) == CellChild(c, m) && Child(v', l) == Child(v, m))
    && (forall l, m :: l in Locs(v') && m in Locs(v') && from(l) == from(m) ==> l == m)
  }

  /** What a place of the edited container holds is a tree apart from the
      container's own cell. */
  lemma PlaceIsTree(cells: Cells, b: nat, v: Json, c': Cell, v': Json, f: nat, x: Json, from: Loc -> Option<Loc>,
                    l: Loc)
    requires Tree(cells, b, v) && Rearranged(cells[b], v, c', v', f, x, from) && l in Locs(v')
    requires from(l).None? ==> Tree(cells, f, x) && Foot(cells, f, x) !! Foot(cells, b, v)
    ensures var cells' := cells[b := c'];
            && Subtree(cells', b, v', l)
            && Foot(cells', CellChild(c', l), Child(v', l)) ==
                 match from(l)
                 case None => Foot(cells, f, x)
                 case Some(m) => Foot(cells, CellChild(cells[b], m), Child(v, m))
  {
    var cells' := cells[b := c'];
    assert b in Foot(cells, b, v);
    match from(l)
    case None =>
      FootAllocated(cells, f, x);
      Frame(cells, cells', f, x);
    case Some(m) =>
      assert Subtree(cells, b, v, m);
      FootAllocated(cells, CellChild(cells[b], m), Child(v, m));
      Frame(cells, cells', CellChild(cells[b], m), Child(v, m));
  }

  lemma EditCell(cells: Cells, b: nat, v: Json, c': Cell, v': Json, f: nat, x: Json, from: Loc -> Option<Loc>)
    requires Tree(cells, b, v) && Rearranged(cells[b], v, c', v', f, x, from)
    requires (exists l :: l in Locs(v') && from(l).None?) ==>
               Tree(cells, f, x) && Foot(cells, f, x) !! Foot(cells, b, v)
    ensures Tree(cells[b := c'], b, v')
    ensures Foot(cells[b := c'], b, v') <= Foot(cells, b, v) + Foot(cells, f, x)
  {
    var cells' := cells[b := c'];
    forall l | l in Locs(v')
      ensures Subtree(cells', b, v', l)
      ensures Foot(cells', CellChild(c', l), Child(v', l)) <= Foot(cells, b, v) + Foot(cells, f, x)
    {
      PlaceIsTree(cells, b, v, c', v', f, x, from, l);
      if from(l).Some? { ChildFoot(cells, b, v, from(l).value); }
    }
    forall l, m | l in Locs(v') && m in Locs(v') && l != m ensures Apart(cells', b, v', l, m) {
      PlaceIsTree(cells, b, v, c', v', f, x, from, l);
      PlaceIsTree(cells, b, v, c', v', f, x, from, m);
      if from(l).Some? { ChildFoot(cells, b, v, from(l).value); }
      if from(m).Some? { ChildFoot(cells, b, v, from(m).value); }
      if from(l).Some? && from(m).Some? { assert Apart(cells, b, v, from(l).value, from(m).value); }
    }
  }

  // ----- An edit deep inside a document -----

  /** Where following the tokens by reference ends. */
  ghost function AddressAt(toInt: IntOf, cells: Cells, a: nat, v: Json, p: seq<string>): nat
    requires Tree(cells, a, v) && Resolve(toInt, v, p).Some?
    decreases |p|
  {
    if p == [] then a
    else
      var l := Locate(toInt, v, p[0]).value;
      assert Subtree(cells, a, v, l);
      AddressAt(toInt, cells, CellChild(cells[a], l), Child(v, l), p[1..])
  }

  lemma {:induction false} TreeAt(toInt: IntOf, cells: Cells, a: nat, v: Json, p: seq<string>)
    requires Tree(cells, a, v) && Resolve(toInt, v, p).Some?
    ensures var b, w := AddressAt(toInt, cells, a, v, p), Resolve(toInt, v, p).value;
            Tree(cells, b, w) && Foot(cells, b, w) <= Foot(cells, a, v)
    decreases |p|
  {
    if p != [] {
      var l := Locate(toInt, v, p[0]).value;
      assert Subtree(cells, a, v, l);
      ChildFoot(cells, a, v, l);
      TreeAt(toInt, cells, CellChild(cells[a], l), Child(v, l), p[1..]);
    }
  }

  /** Editing the node reached by the tokens, and nothing else of the document,
      replaces exactly what the tokens resolve to. */
  lemma {:induction false} EditDeep(toInt: IntOf, cells: Cells, cells': Cells, a: nat, v: Json, p: seq<string>,
                                    x: Json, extra: set<nat>)
    requires Tree(cells, a, v) && Resolve(toInt, v, p).Some?
    requires var b, w := AddressAt(toInt, cells, a, v, p), Resolve(toInt, v, p).value;
             && Agree(cells, cells', Foot(cells, a, v) - {b}) && Tree(cells', b, x)
             && Foot(cells', b, x) <= Foot(cells, b, w) + extra
    requires extra !! Foot(cells, a, v)
    ensures Tree(cells', a, ReplaceAt(toInt, v, p, x))
    ensures Foot(cells', a, ReplaceAt(toInt, v, p, x)) <= Foot(cells, a, v) + extra
    decreases |p|
  {
    if p != [] {
      var l := Locate(toInt, v, p[0]).value;
      var b := AddressAt(toInt, cells, a, v, p);
      assert Subtree(cells, a, v, l);
      ChildFoot(cells, a, v, l);
      TreeAt(toInt, cells, CellChild(cells[a], l), Child(v, l), p[1..]);
      EditDeep(toInt, cells, cells', CellChild(cells[a], l), Child(v, l), p[1..], x, extra);
      EditedChild(cells, cells', a, v, l, ReplaceAt(toInt, Child(v, l), p[1..], x), b, extra);
    }
  }

  lemma EditedChild(cells: Cells, cells': Cells, a: nat, v: Json, l: Loc, y: Json, b: nat, extra: set<nat>)
    requires Tree(cells, a, v) && l in Locs(v) && extra !! Foot(cells, a, v)
    requires b in Foot(cells, CellChild(cells[a], l), Child(v, l)) && Agree(cells, cells', Foot(cells, a, v) - {b})
    requires Tree(cells', CellChild(cells[a], l), y)
    requires Foot(cells', CellChild(cells[a], l), y) <= Foot(cells, CellChild(cells[a], l), Child(v, l)) + extra
    ensures Tree(cells', a, WithChild(v, l, y))
    ensures Foot(cells', a, WithChild(v, l, y)) <= Foot(cells, a, v) + extra
  {
    var w := WithChild(v, l, y);
    assert a in Foot(cells, a, v) && Subtree(cells, a, v, l) && cells'[a] == cells[a];
    forall m | m in Locs(w)
      ensures Subtree(cells', a, w, m)
      ensures Foot(cells', CellChild(cells[a], m), Child(w, m)) <= Foot(cells, CellChild(cells[a], m), Child(v, m)) +
              if m == l then extra else {}
    {
      ChildFoot(cells, a, v, m);
      if m != l { SiblingUntouched(cells, cells', a, v, l, m, b); }
    }
    forall m, n | m in Locs(w) && n in Locs(w) && m != n ensures Apart(cells', a, w, m, n) {
      StillApart(cells, cells', a, v, w, l, m, n, extra);
    }
    forall z | z in Foot(cells', a, w) ensures z in Foot(cells, a, v) + extra {
      if z != a {
        var m :| m in Locs(w) && z in Foot(cells', CellChild(cells'[a], m), Child(w, m));
        ChildFoot(cells, a, v, m);
      }
    }
  }

  lemma StillApart(cells: Cells, cells': Cells, a: nat, v: Json, w: Json, l: Loc, m: Loc, n: Loc, extra: set<nat>)
    requires Tree(cells, a, v) && a in cells' && cells'[a] == cells[a] && Locs(w) == Locs(v)
    requires m in Locs(w) && n in Locs(w) && m != n && extra !! Foot(cells, a, v)
    requires Foot(cells', CellChild(cells[a], m), Child(w, m)) <= Foot(cells, CellChild(cells[a], m), Child(v, m)) +
             if m == l then extra else {}
    requires Foot(cells', CellChild(cells[a], n), Child(w, n)) <= Foot(cells, CellChild(cells[a], n), Child(v, n)) +
             if n == l then extra else {}
    ensures Apart(cells', a, w, m, n)
  {
    assert Apart(cells, a, v, m, n);
    ChildFoot(cells, a, v, m);
    ChildFoot(cells, a, v, n);
  }

  lemma SiblingUntouched(cells: Cells, cells': Cells, a: nat, v: Json, l: Loc, m: Loc, b: nat)
    requires Tree(cells, a, v) && l in Locs(v) && m in Locs(v) && l != m
    requires b in Foot(cells, CellChild(cells[a], l), Child(v, l)) && Agree(cells, cells', Foot(cells, a, v) - {b})
    ensures Tree(cells', CellChild(cells[a], m), Child(v, m))
    ensures Foot(cells', CellChild(cells[a], m), Child(v, m)) == Foot(cells, CellChild(cells[a], m), Child(v, m))
    ensures a !in Foot(cells, CellChild(cells[a], m), Child(v, m))
  {
    assert Apart(cells, a, v, l, m) && Subtree(cells, a, v, m);
    ChildFoot(cells, a, v, m);
    Frame(cells, cells', CellChild(cells[a], m), Child(v, m));
  }

  // ----- Looking a token up in a cell -----

  function CellLocate(toInt: IntOf, c: Cell, token: string): Option<Loc>
  {
    match c
    case ScalarCell(_) => None
    case ListCell(items) =>
      (match toInt(token)
       case None => None
       case Some(i) => match Normalized(i, |items|) case None => None case Some(p) => Some(Index(p)))
    case DictCell(members) => if token in members then Some(Key(token)) else None
  }

  lemma SameLength(items: seq<nat>, values: seq<Json>)
    requires CellLocs(ListCell(items)) == Locs(List(values))
    ensures |items| == |values|
  {
    assert Index(|items|) in CellLocs(ListCell(items)) <==> Index(|items|) in Locs(List(values));
    assert Index(|values|) in CellLocs(ListCell(items)) <==> Index(|values|) in Locs(List(values));
  }

  lemma CellLocateIs(toInt: IntOf, c: Cell, v: Json, token: string)
    requires SameShape(c, v) && CellLocs(c) == Locs(v)
    ensures CellLocate(toInt, c, token) == Locate(toInt, v, token)
  {
    match c
    case ListCell(items) => SameLength(items, v.items);
    case DictCell(members) => assert token in members <==> Key(token) in CellLocs(c);
      assert token in v.members <==> Key(token) in Locs(v);
    case _ =>
  }

  /** Following the first i of the tokens p from document v, at a, has led to
      document w, at node. */
  ghost predicate Reached(toInt: IntOf, cells: Cells, a: nat, v: Json, p: seq<string>, i: nat, node: nat, w: Json)
    requires Tree(cells, a, v) && i <= |p|
  {
    && Tree(cells, node, w) && Resolve(toInt, v, p) == Resolve(toInt, w, p[i..])
    && (Resolve(toInt, v, p).Some? ==>
          AddressAt(toInt, cells, a, v, p) == AddressAt(toInt, cells, node, w, p[i..]))
  }

  lemma ReachedNext(toInt: IntOf, cells: Cells, a: nat, v: Json, p: seq<string>, i: nat, node: nat, w: Json)
    requires Tree(cells, a, v) && i < |p| && Reached(toInt, cells, a, v, p, i, node, w)
    ensures var l := CellLocate(toInt, cells[node], p[i]);
            && l == Locate(toInt, w, p[i]) && (l.None? ==> Resolve(toInt, v, p).None?)
            && (l.Some? ==>
                  && l.value in CellLocs(cells[node]) && l.value in Locs(w)
                  && Reached(toInt, cells, a, v, p, i + 1, CellChild(cells[node], l.value), Child(w, l.value)))
  {
    CellLocateIs(toInt, cells[node], w, p[i]);
    var l := CellLocate(toInt, cells[node], p[i]);
    assert p[i..][0] == p[i] && p[i..][1..] == p[i + 1..];
    if l.Some? { assert Subtree(cells, node, w, l.value); }
  }

  // ----- The mutations -----

  /** Values are references to documents of their own. */
  datatype Mutation =
    | Set(path: string, value: nat)
    | Remove(path: string)
    | Copy(origin: string, path: string)
    | Unknown(path: string)

  /** The tokens of the container, and the final token. */
  function Target(pointer: string): Option<(seq<string>, string)>
  {
    if pointer != "" && pointer[0] != '/' then None
    else
      var tokens := Parse(pointer);
      if tokens == [] then None else Some((tokens[..|tokens| - 1], tokens[|tokens| - 1]))
  }

  /** Nothing in the document is reached by all tokens but the last. */
  predicate Unreached(toInt: IntOf, v: Json, pointer: string)
  {
    Target(pointer).None? || Resolve(toInt, v, Target(pointer).value.0).None?
  }

  function Read(toInt: IntOf, v: Json, pointer: string): Option<Json>
  {
    match Target(pointer)
    case None => None
    case Some((p, last)) => Resolve(toInt, v, p + [last])
  }

  /** What one mutation makes of a document; `literal` is the value it sets. */
  function Applied(toInt: IntOf, v: Json, m: Mutation, literal: Json): Result<Json, EditError>
  {
    match Target(m.path)
    case None => Failure(MutationFailed)
    case Some((p, last)) =>
      if Resolve(toInt, v, p).None? then Failure(MutationFailed)
      else
        match m
        case Set(_, _) => SetAt(toInt, v, p, last, literal)
        case Remove(_) => RemoveAt(toInt, v, p, last)
        case Copy(origin, _) =>
          (match Read(toInt, v, origin)
           case None => Failure(MutationFailed)
           case Some(x) => SetAt(toInt, v, p, last, x))
        case Unknown(_) => Failure(MutationFailed)
  }

  function Literal(m: Mutation, literals: nat -> Json): Json
  {
    if m.Set? then literals(m.value) else Scalar("")
  }

  function AppliedAll(toInt: IntOf, v: Json, ms: seq<Mutation>, literals: nat -> Json): Result<Json, EditError>
    decreases |ms|
  {
    if ms == [] then Success(v)
    else
      match Applied(toInt, v, ms[0], Literal(ms[0], literals))
      case Failure(e) => Failure(e)
      case Success(w) => AppliedAll(toInt, w, ms[1..], literals)
  }

  // ----- What each kind of mutation does -----

  /** A pointer has a target unless it is empty or does not start with a slash. */
  lemma TargetIff(pointer: string)
    ensures Target(pointer) == None <==> pointer == "" || pointer[0] != '/'
  {
    if pointer != "" && pointer[0] == '/' { assert Split(pointer) == [""] + Split(pointer[1..]); }
  }

  /** The value a set or copy stores, where it is found. */
  function ValueOf(toInt: IntOf, v: Json, m: Mutation, literal: Json): Option<Json>
  {
    match m
    case Set(_, _) => Some(literal)
    case Copy(origin, _) => Read(toInt, v, origin)
    case _ => None
  }

  /** Replacing a container moves nothing else. */
  lemma ContainerReplaced(toInt: IntOf, v: Json, p: seq<string>, x: Json)
    requires Resolve(toInt, v, p).Some?
    ensures Resolve(toInt, ReplaceAt(toInt, v, p, x), p) == Some(x)
    ensures forall q :: Diverge(toInt, v, p, q) ==> Resolve(toInt, ReplaceAt(toInt, v, p, x), q) == Resolve(toInt, v, q)
  {
    ReadBack(toInt, v, p, x);
    forall q | Diverge(toInt, v, p, q) ensures Resolve(toInt, ReplaceAt(toInt, v, p, x), q) == Resolve(toInt, v, q) {
      ElsewhereKept(toInt, v, p, x, q);
    }
  }

  /** A set or copy whose value is found stores exactly that: as the member, or as a
      new element, at the end for "-". */
  lemma Stores(toInt: IntOf, v: Json, m: Mutation, literal: Json)
    requires !Unreached(toInt, v, m.path) && (m.Set? || m.Copy?) && ValueOf(toInt, v, m, literal).Some?
    requires !Unassignable(toInt, Resolve(toInt, v, Target(m.path).value.0).value, Target(m.path).value.1)
    ensures var r, x := Applied(toInt, v, m, literal), ValueOf(toInt, v, m, literal).value;
            var p, last := Target(m.path).value.0, Target(m.path).value.1;
            && r.Success? && Resolve(toInt, r.value, p).Some?
            && (forall q :: Diverge(toInt, v, p, q) ==> Resolve(toInt, r.value, q) == Resolve(toInt, v, q))
            && match Resolve(toInt, v, p).value
               case Dict(before) =>
                 Resolve(toInt, r.value, p) == Some(Dict(before[last := x]))
               case List(before) =>
                 var n := |before|;
                 var i := if last == "-" then n else toInt(last).value;
                 var at := if i > n then n else if i >= 0 then i else if n + i >= 0 then n + i else 0;
                 Resolve(toInt, r.value, p) == Some(List(before[..at] + [x] + before[at..]))
               case Scalar(_) => false
  {
    var p, last := Target(m.path).value.0, Target(m.path).value.1;
    var x := ValueOf(toInt, v, m, literal).value;
    var c := Resolve(toInt, v, p).value;
    if c.List? && last == "-" { assert c.items + [x] == c.items[..|c.items|] + [x] + c.items[|c.items|..]; }
    var c' := Assigned(toInt, c, last, x).value;
    ContainerReplaced(toInt, v, p, c');
  }

  /** A remove deletes exactly what its path reads, and fails where it reads nothing. */
  lemma Deletes(toInt: IntOf, v: Json, path: string, literal: Json)
    requires Target(path).Some?
    ensures var r := Applied(toInt, v, Remove(path), literal);
            var p, last := Target(path).value.0, Target(path).value.1;
            && (Read(toInt, v, path) == None ==> r == Failure(MutationFailed))
            && (Read(toInt, v, path).Some? ==>
                  && r.Success? && Resolve(toInt, v, p).Some? && Resolve(toInt, r.value, p).Some?
                  && (forall q :: Diverge(toInt, v, p, q) ==> Resolve(toInt, r.value, q) == Resolve(toInt, v, q))
                  && match Resolve(toInt, v, p).value
                     case Dict(before) => Resolve(toInt, r.value, p) == Some(Dict(before - {last}))
                     case List(before) =>
                       && toInt(last).Some?
                       && (var i := toInt(last).value;
                           var at := if i < 0 then |before| + i else i;
                           && 0 <= at < |before|
                           && Resolve(toInt, r.value, p) == Some(List(before[..at] + before[at + 1..])))
                     case Scalar(_) => false)
  {
    var p, last := Target(path).value.0, Target(path).value.1;
    RemoveFailsIff(toInt, v, p, last);
    ResolveSplit(toInt, v, p, [last]);
    if Read(toInt, v, path).Some? {
      var c' := Removed(toInt, Resolve(toInt, v, p).value, last).value;
      ContainerReplaced(toInt, v, p, c');
    }
  }

  /** Any other mutation fails with the promised error: its path or origin leads
      nowhere, or its kind is unknown. */
  lemma FailsOtherwise(toInt: IntOf, v: Json, m: Mutation, literal: Json)
    ensures Applied(toInt, v, m, literal) == Failure(MutationFailed) <==>
              || Unreached(toInt, v, m.path) || m.Unknown?
              || (m.Remove? && Read(toInt, v, m.path) == None)
              || (m.Copy? && Read(toInt, v, m.origin) == None)
  {
    if !Unreached(toInt, v, m.path) && m.Remove? {
      RemoveFailsIff(toInt, v, Target(m.path).value.0, Target(m.path).value.1);
    }
  }

  /** Mutations apply in order, each to what the ones before it made. */
  lemma {:induction false} LastApplied(toInt: IntOf, v: Json, ms: seq<Mutation>, m: Mutation, literals: nat -> Json)
    ensures AppliedAll(toInt, v, [], literals) == Success(v)
    ensures AppliedAll(toInt, v, ms + [m], literals) ==
              match AppliedAll(toInt, v, ms, literals)
              case Failure(e) => Failure(e)
              case Success(w) => Applied(toInt, w, m, if m.Set? then literals(m.value) else Scalar(""))
    decreases |ms|
  {
    if ms == [] {
      assert ms + [m] == [m] && [m][1..] == [];
    } else {
      assert (ms + [m])[1..] == ms[1..] + [m];
      var first := Applied(toInt, v, ms[0], Literal(ms[0], literals));
      if first.Success? { LastApplied(toInt, first.value, ms[1..], m, literals); }
    }
  }

  // ----- Which mutations fail outside the promised error -----

  /** Containers `_assign` cannot store under this token: a scalar has no items, and
      a list index must be an integer. */
  predicate Unassignable(toInt: IntOf, container: Json, token: string)
  {
    container.Scalar? || (container.List? && token != "-" && toInt(token).None?)
  }

  /** A set or copy whose value and container are found, but which cannot be stored. */
  predicate Misplaced(toInt: IntOf, v: Json, m: Mutation)
  {
    && !Unreached(toInt, v, m.path) && (m.Set? || (m.Copy? && Read(toInt, v, m.origin).Some?))
    && Unassignable(toInt, Resolve(toInt, v, Target(m.path).value.0).value, Target(m.path).value.1)
  }

  /** One mutation raises something other than the promised error exactly when it
      is misplaced. */
  lemma UncaughtIff(toInt: IntOf, v: Json, m: Mutation, literal: Json)
    ensures Applied(toInt, v, m, literal) == Failure(Uncaught) <==> Misplaced(toInt, v, m)
  {
    if !Unreached(toInt, v, m.path) {
      var p, last := Target(m.path).value.0, Target(m.path).value.1;
      SetUncaughtIff(toInt, v, p, last, literal);
      if m.Copy? && Read(toInt, v, m.origin).Some? {
        SetUncaughtIff(toInt, v, p, last, Read(toInt, v, m.origin).value);
      }
    }
  }

  lemma SetUncaughtIff(toInt: IntOf, v: Json, p: seq<string>, token: string, x: Json)
    requires Resolve(toInt, v, p).Some?
    ensures SetAt(toInt, v, p, token, x) == Failure(Uncaught) <==>
              Unassignable(toInt, Resolve(toInt, v, p).value, token)
  {
  }

  /** The first i mutations make w of v. */
  predicate Made(toInt: IntOf, v: Json, ms: seq<Mutation>, literals: nat -> Json, i: nat, w: Json)
  {
    i <= |ms| && AppliedAll(toInt, v, ms[..i], literals) == Success(w)
  }

  lemma MadeFirst(toInt: IntOf, v: Json, ms: seq<Mutation>, literals: nat -> Json, i: nat, w: Json)
    requires 0 < i <= |ms|
    ensures var first := Applied(toInt, v, ms[0], Literal(ms[0], literals));
            Made(toInt, v, ms, literals, i, w) <==>
              first.Success? && Made(toInt, first.value, ms[1..], literals, i - 1, w)
  {
    assert ms[..i][0] == ms[0] && ms[..i][1..] == ms[1..][..i - 1];
  }

  lemma {:induction false} UncaughtAt(toInt: IntOf, v: Json, ms: seq<Mutation>, literals: nat -> Json)
    returns (i: nat, w: Json)
    requires AppliedAll(toInt, v, ms, literals) == Failure(Uncaught)
    ensures Made(toInt, v, ms, literals, i, w) && i < |ms| && Misplaced(toInt, w, ms[i])
    decreases |ms|
  {
    var first := Applied(toInt, v, ms[0], Literal(ms[0], literals));
    if first.Success? {
      i, w := UncaughtAt(toInt, first.value, ms[1..], literals);
      i := i + 1;
      MadeFirst(toInt, v, ms, literals, i, w);
    } else {
      UncaughtIff(toInt, v, ms[0], Literal(ms[0], literals));
      i, w := 0, v;
    }
  }

  lemma {:induction false} MisplacedFails(toInt: IntOf, v: Json, ms: seq<Mutation>, literals: nat -> Json,
                                          i: nat, w: Json)
    requires Made(toInt, v, ms, literals, i, w) && i < |ms| && Misplaced(toInt, w, ms[i])
    ensures AppliedAll(toInt, v, ms, literals) == Failure(Uncaught)
    decreases i
  {
    if i == 0 {
      UncaughtIff(toInt, v, ms[0], Literal(ms[0], literals));
    } else {
      MadeFirst(toInt, v, ms, literals, i, w);
      MisplacedFails(toInt, Applied(toInt, v, ms[0], Literal(ms[0], literals)).value, ms[1..], literals, i - 1, w);
    }
  }

  /** A whole case does exactly when one of its mutations is misplaced in what the
      ones before it made. */
  lemma CaseUncaughtIff(toInt: IntOf, v: Json, ms: seq<Mutation>, literals: nat -> Json)
    ensures AppliedAll(toInt, v, ms, literals) == Failure(Uncaught) <==>
              exists i: nat, w :: Made(toInt, v, ms, literals, i, w) && i < |ms| && Misplaced(toInt, w, ms[i])
  {
    if AppliedAll(toInt, v, ms, literals) == Failure(Uncaught) {
      var i, w := UncaughtAt(toInt, v, ms, literals);
    }
    if i: nat, w :| Made(toInt, v, ms, literals, i, w) && i < |ms| && Misplaced(toInt, w, ms[i]) {
      MisplacedFails(toInt, v, ms, literals, i, w);
    }
  }

  lemma TargetOfPrinted(p: seq<string>, last: string)
    ensures Target(Print(p + [last])) == Some((p, last))
  {
    PointerRoundTrip(p + [last]);
    assert (p + [last])[..|p|] == p;
    PrintIsPointer(p + [last]);
  }

  lemma UnderScalar(toInt: IntOf, a: string, b: string, text: string, value: nat, literal: Json)
    ensures Applied(toInt, Dict(map[a := Scalar(text)]), Set(Print([a, b]), value), literal) == Failure(Uncaught)
  {
    var v := Dict(map[a := Scalar(text)]);
    TargetOfPrinted([a], b);
    assert [a] + [b] == [a, b] && [a][1..] == [];
    assert Resolve(toInt, v.members[a], []) == Some(Scalar(text));
    UncaughtIff(toInt, v, Set(Print([a, b]), value), literal);
  }

  lemma NoIndex(toInt: IntOf, items: seq<Json>, token: string, value: nat, literal: Json)
    requires token != "-" && toInt(token).None?
    ensures Applied(toInt, List(items), Set(Print([token]), value), literal) == Failure(Uncaught)
  {
    TargetOfPrinted([], token);
    assert [] + [token] == [token];
    UncaughtIff(toInt, List(items), Set(Print([token]), value), literal);
  }

  lemma PlainToken(token: string)
    requires |token| == 1 && token[0] != '~' && token[0] != '/'
    ensures Escape(token) == token
  {
    EscapeIsEncode(token);
    assert token[1..] == "" && token == [token[0]];
  }

  lemma PlainPaths()
    ensures Print(["a", "b"]) == "/a/b" && Print(["x"]) == "/x"
  {
    PlainToken("a");
    PlainToken("b");
    PlainToken("x");
    assert ["a", "b"][1..] == ["b"] && ["b"][1..] == [] && ["x"][1..] == [];
    assert Print(["b"]) == "/b";
  }

  /** Such inputs: a member set under a string, and an element set at an index that
      is no integer. */
  lemma MisplacedInputs(toInt: IntOf, value: nat, literal: Json)
    requires toInt("x").None?
    ensures Applied(toInt, Dict(map["a" := Scalar("text")]), Set("/a/b", value), literal) == Failure(Uncaught)
    ensures Applied(toInt, List([]), Set("/x", value), literal) == Failure(Uncaught)
  {
    PlainPaths();
    UnderScalar(toInt, "a", "b", "text", value, literal);
    NoIndex(toInt, [], "x", value, literal);
  }

  /** All tokens of a pointer that has a target. */
  function TokensOf(pointer: string): seq<string>
    requires Target(pointer).Some?
  {
    Target(pointer).value.0 + [Target(pointer).value.1]
  }

  /** A copy sets what its origin reads, and fails where the origin does not
      resolve; into an object, the path then reads that value, and the origin
      still does wherever it parts ways with the object. */
  lemma CopySetsWhatIsRead(toInt: IntOf, v: Json, origin: string, path: string, value: nat, literal: Json)
    ensures Read(toInt, v, origin).None? ==> Applied(toInt, v, Copy(origin, path), literal) == Failure(MutationFailed)
    ensures Read(toInt, v, origin).Some? ==>
              Applied(toInt, v, Copy(origin, path), literal) ==
              Applied(toInt, v, Set(path, value), Read(toInt, v, origin).value)
    ensures Read(toInt, v, origin).Some? && !Unreached(toInt, v, path) &&
            Resolve(toInt, v, Target(path).value.0).value.Dict? ==>
              var r := Applied(toInt, v, Copy(origin, path), literal);
              && r.Success? && Read(toInt, r.value, path) == Read(toInt, v, origin)
              && (Diverge(toInt, v, Target(path).value.0, TokensOf(origin)) ==>
                    Read(toInt, r.value, origin) == Read(toInt, v, origin))
  {
    if Read(toInt, v, origin).Some? && !Unreached(toInt, v, path) &&
       Resolve(toInt, v, Target(path).value.0).value.Dict? {
      SetMember(toInt, v, Target(path).value.0, Target(path).value.1, Read(toInt, v, origin).value);
    }
  }

  ghost predicate Kept(before: Cells, after: Cells)
  {
    forall a :: a in before ==> a in after && after[a] == before[a]
  }

  /** The document v at address a became v', sharing nothing with other cells
      that existed before. */
  ghost predicate Became(before: Cells, after: Cells, a: nat, v: Json, v': Json)
  {
    Tree(after, a, v') && Foot(after, a, v') !! before.Keys - Foot(before, a, v)
  }

  class Memory {
    var cells: Cells
    var next: nat

    ghost predicate Valid()
      reads this
    {
      forall a :: a in cells ==> a < next
    }

    method Alloc(c: Cell) returns (a: nat)
      requires Valid()
      modifies this
      ensures Valid() && a !in old(cells) && cells == old(cells)[a := c]
    {
      a := next;
      cells := cells[a := c];
      next := next + 1;
    }

    /** copy.deepcopy: a fresh tree of the same value, nothing else changed. */
    method DeepCopy(a: nat, ghost v: Json) returns (b: nat)
      requires Valid() && Tree(cells, a, v)
      modifies this
      ensures Valid() && Kept(old(cells), cells)
      ensures Tree(cells, b, v) && Foot(cells, b, v) !! old(cells).Keys
      decreases v, 1
    {
      var c := cells[a];
      ghost var start := cells;
      var copies := CopyPlaces(a, v, CellLocs(c));
      ghost var mid := cells;
      var c' := match c
        case ScalarCell(_) => c
        case ListCell(items) =>
          ListCell(seq(|items|, i requires 0 <= i < |items| && Index(i) in copies => copies[Index(i)]))
        case DictCell(members) => DictCell(map k | k in members :: copies[Key(k)]);
      b := Alloc(c');
      Assembled(start, mid, v, b, c', copies);
    }

    /** Copies what each place of a container holds. */
    method CopyPlaces(a: nat, ghost v: Json, places: set<Loc>) returns (copies: map<Loc, nat>)
      requires Valid() && Tree(cells, a, v) && places <= Locs(v)
      modifies this
      ensures Valid() && Kept(old(cells), cells) && copies.Keys == places && CopiesOk(old(cells), cells, v, copies)
      decreases v, 0
    {
      copies := map[];
      var left := places;
      ghost var start := cells;
      while left != {}
        invariant Valid() && Kept(start, cells) && left <= places
        invariant copies.Keys == places - left && CopiesOk(start, cells, v, copies)
      {
        var l :| l in left;
        ghost var before := cells;
        assert Subtree(start, a, v, l);
        StillThere(start, cells, CellChild(start[a], l), Child(v, l));
        var b := DeepCopy(CellChild(cells[a], l), Child(v, l));
        OneMoreCopy(start, before, cells, v, copies, l, b);
        copies := copies[l := b];
        left := left - {l};
      }
    }

    // ----- Editing in place -----

    /** Follows the tokens by reference. */
    method Follow(toInt: IntOf, a: nat, ghost v: Json, tokens: seq<string>) returns (r: Option<nat>)
      requires Tree(cells, a, v)
      ensures r == if Resolve(toInt, v, tokens).None? then None else Some(AddressAt(toInt, cells, a, v, tokens))
    {
      var node := a;
      ghost var w := v;
      assert tokens[0..] == tokens;
      for i := 0 to |tokens|
        invariant Reached(toInt, cells, a, v, tokens, i, node, w)
      {
        ReachedNext(toInt, cells, a, v, tokens, i, node, w);
        var l := CellLocate(toInt, cells[node], tokens[i]);
        if l.None? { return None; }
        node := CellChild(cells[node], l.value);
        w := Child(w, l.value);
      }
      r := Some(node);
    }

    /** The node all tokens but the last lead to, and the last token. */
    method Descend(toInt: IntOf, a: nat, ghost v: Json, pointer: string) returns (r: Result<(nat, string), EditError>)
      requires Tree(cells, a, v)
      ensures Unreached(toInt, v, pointer) ==> r == Failure(MutationFailed)
      ensures !Unreached(toInt, v, pointer) ==>
                r == Success((AddressAt(toInt, cells, a, v, Target(pointer).value.0), Target(pointer).value.1))
    {
      if pointer != "" && pointer[0] != '/' { return Failure(MutationFailed); }
      var tokens := Parse(pointer);
      if |tokens| == 0 { return Failure(MutationFailed); }
      var node := Follow(toInt, a, v, tokens[..|tokens| - 1]);
      if node.None? { return Failure(MutationFailed); }
      r := Success((node.value, tokens[|tokens| - 1]));
    }

    /** Stores document x, at f, under a token of container b. */
    method Assign(toInt: IntOf, b: nat, ghost w: Json, token: string, f: nat, ghost x: Json)
      returns (e: Option<EditError>)
      requires Tree(cells, b, w) && Tree(cells, f, x) && Foot(cells, f, x) !! Foot(cells, b, w)
      modifies this`cells
      ensures cells.Keys == old(cells).Keys && Agree(old(cells), cells, old(cells).Keys - {b})
      ensures match Assigned(toInt, w, token, x)
              case Failure(err) => e == Some(err) && cells == old(cells)
              case Success(w') =>
                && e.None? && Tree(cells, b, w')
                && Foot(cells, b, w') <= old(Foot(cells, b, w)) + old(Foot(cells, f, x))
    {
      match cells[b] {
      case ScalarCell(_) => return Some(Uncaught);
      case DictCell(members) =>
        DictEdit(cells, b, w, token, f, x);
        cells := cells[b := DictCell(members[token := f])];
      case ListCell(items) =>
        SameLength(items, w.items);
        if token == "-" {
          assert items + [f] == items[..|items|] + [f] + items[|items|..];
          assert w.items + [x] == Inserted(w.items, |items|, x);
          ListEdit(cells, b, w, |items|, f, x);
          cells := cells[b := ListCell(items + [f])];
        } else {
          var i := toInt(token);
          if i.None? { return Some(Uncaught); }
          var at := Slot(i.value, |items|);
          ListEdit(cells, b, w, at, f, x);
          cells := cells[b := ListCell(items[..at] + [f] + items[at..])];
        }
      }
      e := None;
    }

    method RemoveToken(toInt: IntOf, b: nat, ghost w: Json, token: string) returns (e: Option<EditError>)
      requires Tree(cells, b, w)
      modifies this`cells
      ensures cells.Keys == old(cells).Keys && Agree(old(cells), cells, old(cells).Keys - {b})
      ensures match Removed(toInt, w, token)
              case Failure(err) => e == Some(err) && cells == old(cells)
              case Success(w') => e.None? && Tree(cells, b, w') && Foot(cells, b, w') <= old(Foot(cells, b, w))
    {
      CellLocateIs(toInt, cells[b], w, token);
      var l := CellLocate(toInt, cells[b], token);
      if l.None? { return Some(MutationFailed); }
      match cells[b] {
      case ListCell(items) =>
        SameLength(items, w.items);
        ListRemoval(cells, b, w, l.value.i);
        cells := cells[b := ListCell(items[..l.value.i] + items[l.value.i + 1..])];
      case DictCell(members) =>
        DictRemoval(cells, b, w, token);
        cells := cells[b := DictCell(members - {token})];
      }
      e := None;
    }

    /** What a pointer reads, by reference. */
    method ReadReference(toInt: IntOf, a: nat, ghost v: Json, pointer: string) returns (r: Result<nat, EditError>)
      requires Tree(cells, a, v)
      ensures match Read(toInt, v, pointer)
              case None => r == Failure(MutationFailed)
              case Some(x) => r.Success? && Tree(cells, r.value, x)
    {
      if Target(pointer).Some? { ResolveSplit(toInt, v, Target(pointer).value.0, [Target(pointer).value.1]); }
      var d := Descend(toInt, a, v, pointer);
      if d.Failure? { return Failure(d.error); }
      var (node, last) := d.value;
      ghost var p := Target(pointer).value.0;
      ghost var w := Resolve(toInt, v, p).value;
      TreeAt(toInt, cells, a, v, p);
      CellLocateIs(toInt, cells[node], w, last);
      assert [last][1..] == [];
      var l := CellLocate(toInt, cells[node], last);
      if l.None? { return Failure(MutationFailed); }
      assert Subtree(cells, node, w, l.value);
      r := Success(CellChild(cells[node], l.value));
    }

    /** Deep-copies document x, at f, beside the document about to receive it. */
    method CopyBeside(toInt: IntOf, a: nat, ghost v: Json, ghost p: seq<string>, f: nat, ghost x: Json) returns (c: nat)
      requires Valid() && Tree(cells, a, v) && Tree(cells, f, x) && Resolve(toInt, v, p).Some?
      modifies this
      ensures Valid() && Kept(old(cells), cells) && Tree(cells, c, x) && Foot(cells, c, x) !! old(cells).Keys
      ensures Tree(cells, a, v) && Foot(cells, a, v) == old(Foot(cells, a, v)) && Foot(cells, a, v) <= old(cells).Keys
      ensures var b, w := AddressAt(toInt, cells, a, v, p), Resolve(toInt, v, p).value;
              && b == old(AddressAt(toInt, cells, a, v, p)) && Tree(cells, b, w)
              && Foot(cells, b, w) <= Foot(cells, a, v) && Foot(cells, c, x) !! Foot(cells, b, w)
    {
      ghost var start := cells;
      c := DeepCopy(f, x);
      BeforeAssign(toInt, start, cells, a, v, p, c, x);
    }

    /** Deep-copies document x, at f, into place under the last token. */
    method AssignCopy(toInt: IntOf, a: nat, ghost v: Json, ghost p: seq<string>, b: nat, token: string, f: nat,
                      ghost x: Json)
      returns (e: Option<EditError>)
      requires Valid() && Tree(cells, a, v) && Tree(cells, f, x)
      requires Resolve(toInt, v, p).Some? && b == AddressAt(toInt, cells, a, v, p)
      modifies this
      ensures Valid() && Agree(old(cells), cells, old(cells).Keys - old(Foot(cells, a, v)))
      ensures match SetAt(toInt, v, p, token, x)
              case Failure(err) => e == Some(err)
              case Success(v') => e.None? && Became(old(cells), cells, a, v, v')
    {
      ghost var start := cells;
      ghost var w := Resolve(toInt, v, p).value;
      var c := CopyBeside(toInt, a, v, p, f, x);
      ghost var mid := cells;
      e := Assign(toInt, b, w, token, c, x);
      if e.None? {
        AfterAssign(toInt, start, mid, cells, a, v, p, Assigned(toInt, w, token, x).value, Foot(mid, c, x));
      }
    }

    method RemoveInPlace(toInt: IntOf, a: nat, ghost v: Json, ghost p: seq<string>, b: nat, token: string)
      returns (e: Option<EditError>)
      requires Valid() && Tree(cells, a, v) && Resolve(toInt, v, p).Some? && b == AddressAt(toInt, cells, a, v, p)
      modifies this
      ensures Valid() && Agree(old(cells), cells, old(cells).Keys - old(Foot(cells, a, v)))
      ensures match RemoveAt(toInt, v, p, token)
              case Failure(err) => e == Some(err)
              case Success(v') => e.None? && Became(old(cells), cells, a, v, v')
    {
      ghost var start := cells;
      TreeAt(toInt, cells, a, v, p);
      ghost var w := Resolve(toInt, v, p).value;
      e := RemoveToken(toInt, b, w, token);
      if e.None? {
        AfterRemoval(toInt, start, cells, a, v, p, Removed(toInt, w, token).value);
      }
    }

    /** One mutation, in place; the value it sets or copies is copied first. */
    method ApplyOne(toInt: IntOf, a: nat, ghost v: Json, m: Mutation, ghost literal: Json)
      returns (e: Option<EditError>)
      requires Valid() && Tree(cells, a, v) && (m.Set? ==> Tree(cells, m.value, literal))
      modifies this
      ensures Valid() && Agree(old(cells), cells, old(cells).Keys - old(Foot(cells, a, v)))
      ensures match Applied(toInt, v, m, literal)
              case Failure(err) => e == Some(err)
              case Success(v') => e.None? && Became(old(cells), cells, a, v, v')
    {
      var d := Descend(toInt, a, v, m.path);
      if d.Failure? { return Some(d.error); }
      var (b, last) := d.value;
      ghost var p := Target(m.path).value.0;
      match m
      case Set(_, value) =>
        e := AssignCopy(toInt, a, v, p, b, last, value, literal);
      case Remove(_) =>
        e := RemoveInPlace(toInt, a, v, p, b, last);
      case Copy(origin, _) =>
        var source := ReadReference(toInt, a, v, origin);
        if source.Failure? { return Some(source.error); }
        e := AssignCopy(toInt, a, v, p, b, last, source.value, Read(toInt, v, origin).value);
      case Unknown(_) =>
        e := Some(MutationFailed);
    }

    /** The base with every mutation applied, as a new document.  Whatever the
        mutations, and even when one fails, nothing that existed before changes:
        neither the base nor the values set. */
    method ApplyMutations(toInt: IntOf, base: nat, ghost v: Json, ms: seq<Mutation>, ghost literals: nat -> Json)
      returns (r: Result<nat, EditError>)
      requires Valid() && Tree(cells, base, v)
      requires forall m :: m in ms && m.Set? ==> Tree(cells, m.value, literals(m.value))
      modifies this
      ensures Valid() && Kept(old(cells), cells)
      ensures match AppliedAll(toInt, v, ms, literals)
              case Failure(err) => r == Failure(err)
              case Success(w) => r.Success? && Tree(cells, r.value, w) && Foot(cells, r.value, w) !! old(cells).Keys
    {
      ghost var start := cells;
      var document := DeepCopy(base, v);
      ghost var w := v;
      assert ms[0..] == ms;
      for i := 0 to |ms|
        invariant Valid() && Kept(start, cells) && Tree(cells, document, w) && Foot(cells, document, w) !! start.Keys
        invariant AppliedAll(toInt, v, ms, literals) == AppliedAll(toInt, w, ms[i..], literals)
      {
        var m := ms[i];
        assert ms[i..][0] == m && ms[i..][1..] == ms[i + 1..] && m in ms;
        if m.Set? { StillThere(start, cells, m.value, literals(m.value)); }
        var e := ApplyOne(toInt, document, w, m, Literal(m, literals));
        if e.Some? { return Failure(e.value); }
        w := Applied(toInt, w, m, Literal(m, literals)).value;
      }
      r := Success(document);
    }
  }

  /** Making a fresh copy leaves the document, and where its tokens lead, alone. */
  lemma BeforeAssign(toInt: IntOf, start: Cells, mid: Cells, a: nat, v: Json, p: seq<string>, c: nat, x: Json)
    requires Tree(start, a, v) && Kept(start, mid) && Foot(mid, c, x) !! start.Keys && Resolve(toInt, v, p).Some?
    ensures Tree(mid, a, v) && Foot(mid, a, v) == Foot(start, a, v) && Foot(start, a, v) <= start.Keys
    ensures var b, w := AddressAt(toInt, start, a, v, p), Resolve(toInt, v, p).value;
            && AddressAt(toInt, mid, a, v, p) == b && Tree(mid, b, w)
            && Foot(mid, b, w) <= Foot(mid, a, v) && Foot(mid, c, x) !! Foot(mid, b, w)
  {
    StillThere(start, mid, a, v);
    AddressKept(toInt, start, mid, a, v, p);
    TreeAt(toInt, mid, a, v, p);
  }

  /** A fresh copy was made, then one cell of the document edited. */
  lemma AfterAssign(toInt: IntOf, start: Cells, mid: Cells, after: Cells, a: nat, v: Json, p: seq<string>, w': Json,
                    extra: set<nat>)
    requires Tree(start, a, v) && Kept(start, mid) && extra !! start.Keys
    requires Tree(mid, a, v) && Foot(mid, a, v) == Foot(start, a, v) && Foot(start, a, v) <= start.Keys
    requires Resolve(toInt, v, p).Some?
    requires var b, w := AddressAt(toInt, mid, a, v, p), Resolve(toInt, v, p).value;
             && Foot(mid, b, w) <= Foot(mid, a, v)
             && after.Keys == mid.Keys && Agree(mid, after, mid.Keys - {b})
             && Tree(after, b, w') && Foot(after, b, w') <= Foot(mid, b, w) + extra
    ensures Became(start, after, a, v, ReplaceAt(toInt, v, p, w'))
    ensures Agree(start, after, start.Keys - Foot(start, a, v))
  {
    TreeAt(toInt, mid, a, v, p);
    EditDeep(toInt, mid, after, a, v, p, w', extra);
  }

  lemma AfterRemoval(toInt: IntOf, start: Cells, after: Cells, a: nat, v: Json, p: seq<string>, w': Json)
    requires Tree(start, a, v) && Resolve(toInt, v, p).Some?
    requires var b, w := AddressAt(toInt, start, a, v, p), Resolve(toInt, v, p).value;
             && after.Keys == start.Keys && Agree(start, after, start.Keys - {b})
             && Tree(after, b, w') && Foot(after, b, w') <= Foot(start, b, w)
    ensures Became(start, after, a, v, ReplaceAt(toInt, v, p, w'))
    ensures Agree(start, after, start.Keys - Foot(start, a, v))
  {
    StillThere(start, start, a, v);
    TreeAt(toInt, start, a, v, p);
    EditDeep(toInt, start, after, a, v, p, w', {});
  }

  lemma {:induction false} AddressKept(toInt: IntOf, before: Cells, after: Cells, a: nat, v: Json, p: seq<string>)
    requires Tree(before, a, v) && Tree(after, a, v) && Kept(before, after) && Resolve(toInt, v, p).Some?
    ensures AddressAt(toInt, after, a, v, p) == AddressAt(toInt, before, a, v, p)
    decreases |p|
  {
    if p != [] {
      var l := Locate(toInt, v, p[0]).value;
      assert Subtree(before, a, v, l) && Subtree(after, a, v, l);
      AddressKept(toInt, before, after, CellChild(before[a], l), Child(v, l), p[1..]);
    }
  }

  // ----- Copies -----

  ghost predicate CopyOk(start: Cells, cells: Cells, v: Json, l: Loc, b: nat)
    requires l in Locs(v)
  {
    Tree(cells, b, Child(v, l)) && Foot(cells, b, Child(v, l)) !! start.Keys
  }

  ghost predicate CopiesApart(cells: Cells, v: Json, l: Loc, b: nat, m: Loc, c: nat)
    requires l in Locs(v) && m in Locs(v)
  {
    Foot(cells, b, Child(v, l)) !! Foot(cells, c, Child(v, m))
  }

  ghost predicate CopiesOk(start: Cells, cells: Cells, v: Json, copies: map<Loc, nat>)
  {
    && copies.Keys <= Locs(v)
    && (forall l {:trigger CopyOk(start, cells, v, l, copies[l])} ::
          l in copies ==> CopyOk(start, cells, v, l, copies[l]))
    && (forall l, m {:trigger CopiesApart(cells, v, l, copies[l], m, copies[m])} ::
          l in copies && m in copies && l != m ==>
          CopiesApart(cells, v, l, copies[l], m, copies[m]))
  }

  lemma OneMoreCopy(start: Cells, before: Cells, after: Cells, v: Json, copies: map<Loc, nat>, l: Loc, b: nat)
    requires CopiesOk(start, before, v, copies) && Kept(start, before) && Kept(before, after) && l in Locs(v) &&
             l !in copies
    requires Tree(after, b, Child(v, l)) && Foot(after, b, Child(v, l)) !! before.Keys
    ensures CopiesOk(start, after, v, copies[l := b])
  {
    var copies' := copies[l := b];
    forall m | m in copies'
      ensures CopyOk(start, after, v, m, copies'[m])
      ensures m != l ==> CopiesApart(after, v, m, copies'[m], l, b) && CopiesApart(after, v, l, b, m, copies'[m])
      ensures m != l ==> Foot(after, copies'[m], Child(v, m)) == Foot(before, copies'[m], Child(v, m))
    {
      if m != l {
        assert CopyOk(start, before, v, m, copies[m]);
        StillThere(before, after, copies[m], Child(v, m));
      }
    }
    forall m, n | m in copies' && n in copies' && m != n ensures CopiesApart(after, v, m, copies'[m], n, copies'[n]) {
      if m != l && n != l { assert CopiesApart(before, v, m, copies[m], n, copies[n]); }
    }
  }

  lemma StillThere(before: Cells, after: Cells, a: nat, v: Json)
    requires Tree(before, a, v) && Kept(before, after)
    ensures Tree(after, a, v) && Foot(after, a, v) == Foot(before, a, v) && Foot(before, a, v) <= before.Keys
  {
    FootAllocated(before, a, v);
    Frame(before, after, a, v);
  }

  /** Fresh copies of all places, under a fresh cell, are a fresh document. */
  lemma Assembled(start: Cells, mid: Cells, v: Json, b: nat, c: Cell, copies: map<Loc, nat>)
    requires CopiesOk(start, mid, v, copies) && copies.Keys == Locs(v) && Kept(start, mid) && b !in mid
    requires SameShape(c, v) && CellLocs(c) == Locs(v) && forall l :: l in Locs(v) ==> CellChild(c, l) == copies[l]
    ensures Tree(mid[b := c], b, v) && Foot(mid[b := c], b, v) !! start.Keys
  {
    var cells := mid[b := c];
    forall l | l in Locs(v)
      ensures Subtree(cells, b, v, l) && Foot(cells, copies[l], Child(v, l)) == Foot(mid, copies[l], Child(v, l))
      ensures Foot(cells, copies[l], Child(v, l)) !! start.Keys
    {
      PlaceAssembled(start, mid, v, b, c, copies, l);
    }
    forall l, m | l in Locs(v) && m in Locs(v) && l != m ensures Apart(cells, b, v, l, m) {
      assert CopiesApart(mid, v, l, copies[l], m, copies[m]);
    }
  }

  lemma PlaceAssembled(start: Cells, mid: Cells, v: Json, b: nat, c: Cell, copies: map<Loc, nat>, l: Loc)
    requires CopiesOk(start, mid, v, copies) && copies.Keys == Locs(v) && Kept(start, mid) && b !in mid && l in Locs(v)
    requires CellLocs(c) == Locs(v) && CellChild(c, l) == copies[l]
    ensures Subtree(mid[b := c], b, v, l)
    ensures Foot(mid[b := c], copies[l], Child(v, l)) == Foot(mid, copies[l], Child(v, l))
    ensures Foot(mid, copies[l], Child(v, l)) !! start.Keys
  {
    assert CopyOk(start, mid, v, l, copies[l]);
    StillThere(mid, mid[b := c], copies[l], Child(v, l));
  }

  // ----- The four container edits as rearrangements -----

  lemma DictEdit(cells: Cells, b: nat, w: Json, token: string, f: nat, x: Json)
    requires Tree(cells, b, w) && w.Dict? && Tree(cells, f, x) && Foot(cells, f, x) !! Foot(cells, b, w)
    ensures var cells' := cells[b := DictCell(cells[b].members[token := f])];
            var w' := Dict(w.members[token := x]);
            Tree(cells', b, w') && Foot(cells', b, w') <= Foot(cells, b, w) + Foot(cells, f, x)
  {
    var c' := DictCell(cells[b].members[token := f]);
    var w' := Dict(w.members[token := x]);
    var from := (l: Loc) => if l == Key(token) then None else Some(l);
    forall l ensures l in CellLocs(c') <==> l in Locs(w') {
      assert l in CellLocs(cells[b]) <==> l in Locs(w);
    }
    EditCell(cells, b, w, c', w', f, x, from);
  }

  lemma ListEdit(cells: Cells, b: nat, w: Json, at: nat, f: nat, x: Json)
    requires Tree(cells, b, w) && w.List? && at <= |w.items| && |cells[b].items| == |w.items|
    requires Tree(cells, f, x) && Foot(cells, f, x) !! Foot(cells, b, w)
    ensures var cells' := cells[b := ListCell(cells[b].items[..at] + [f] + cells[b].items[at..])];
            var w' := List(Inserted(w.items, at, x));
            Tree(cells', b, w') && Foot(cells', b, w') <= Foot(cells, b, w) + Foot(cells, f, x)
  {
    var items := cells[b].items;
    var c' := ListCell(items[..at] + [f] + items[at..]);
    var w' := List(Inserted(w.items, at, x));
    var from := ListRearranged(cells[b], w, at, f, x);
    EditCell(cells, b, w, c', w', f, x, from);
  }

  lemma ListRearranged(c: Cell, w: Json, at: nat, f: nat, x: Json) returns (from: Loc -> Option<Loc>)
    requires c.ListCell? && w.List? && CellLocs(c) == Locs(w) && |c.items| == |w.items| && at <= |w.items|
    ensures Rearranged(c, w, ListCell(c.items[..at] + [f] + c.items[at..]), List(Inserted(w.items, at, x)), f, x, from)
  {
    from := (l: Loc) => if !l.Index? || l.i < at then Some(l) else if l.i == at then None else Some(Index(l.i - 1));
  }

  lemma ListRemoval(cells: Cells, b: nat, w: Json, at: nat)
    requires Tree(cells, b, w) && w.List? && at < |w.items| && |cells[b].items| == |w.items|
    ensures var cells' := cells[b := ListCell(cells[b].items[..at] + cells[b].items[at + 1..])];
            var w' := List(w.items[..at] + w.items[at + 1..]);
            Tree(cells', b, w') && Foot(cells', b, w') <= Foot(cells, b, w)
  {
    var items := cells[b].items;
    var c' := ListCell(items[..at] + items[at + 1..]);
    var w' := List(w.items[..at] + w.items[at + 1..]);
    var from := (l: Loc) => if !l.Index? || l.i < at then Some(l) else Some(Index(l.i + 1));
    EditCell(cells, b, w, c', w', b, w, from);
  }

  lemma DictRemoval(cells: Cells, b: nat, w: Json, token: string)
    requires Tree(cells, b, w) && w.Dict?
    ensures var cells' := cells[b := DictCell(cells[b].members - {token})];
            var w' := Dict(w.members - {token});
            Tree(cells', b, w') && Foot(cells', b, w') <= Foot(cells, b, w)
  {
    var c' := DictCell(cells[b].members - {token});
    var w' := Dict(w.members - {token});
    forall l ensures l in CellLocs(c') <==> l in Locs(w') {
      assert l in CellLocs(cells[b]) <==> l in Locs(w);
    }
    EditCell(cells, b, w, c', w', b, w, l => Some(l));
  }
}
