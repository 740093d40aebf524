/** Any number of evidence writers sharing one directory, one file operation at
    a time.  Nothing is assumed of the digest: collisions may occur. */
module Publication {
  import opened Text
  import opened Evidence

  datatype Outcome = Stored | Collided | Interrupted

  /** Where one `store_evidence` call stands. */
  datatype Writer =
    | Starting(data: Bytes)              // digest computed, nothing checked
    | Found(data: Bytes)                 // the existence check saw a file
    | Absent(data: Bytes)                // the existence check saw none
    | Writing(data: Bytes, written: nat) // temporary file holds a prefix
    | Staged(data: Bytes)                // temporary file complete and closed
    | Published(data: Bytes)             // the link succeeded
    | Beaten(data: Bytes)                // the link found a file already there
    | Compared(data: Bytes, equal: bool) // that file was read and compared
    | Done(data: Bytes, outcome: Outcome)
    | Killed(data: Bytes)                // the process died: no cleanup

  datatype Directory = Directory(files: Files, temps: map<nat, Bytes>, writers: map<nat, Writer>)

  predicate Running(w: Writer)
  {
    !w.Done? && !w.Killed?
  }

  function Without(temps: map<nat, Bytes>, w: nat): map<nat, Bytes>
  {
    temps - {w}
  }

  /** What writer w's next file operation does to its own phase, to its
      temporary file and to the directory. */
  ghost predicate Operation(hash: Digest, s: Directory, w: nat, s': Directory)
  {
    w in s.writers && w in s'.writers && s'.writers == s.writers[w := s'.writers[w]] &&
    var next := s'.writers[w];
    match s.writers[w]
    case Starting(data) =>
      && next == (if hash(data) in s.files then Found(data) else Absent(data))
      && s'.files == s.files && s'.temps == s.temps
    case Found(data) =>
      && next == Done(data, if hash(data) in s.files && s.files[hash(data)] == data then Stored else Collided)
      && s'.files == s.files && s'.temps == s.temps
    case Absent(data) =>
      next == Writing(data, 0) && s'.files == s.files && s'.temps == s.temps[w := []]
    case Writing(data, n) =>
      if n < |data| then
        && next.Writing? && next.data == data && n < next.written <= |data|
        && s'.files == s.files && s'.temps == s.temps[w := data[..next.written]]
      else next == Staged(data) && s'.files == s.files && s'.temps == s.temps
    case Staged(data) =>
      && s'.temps == s.temps
      && (if hash(data) in s.files then next == Beaten(data) && s'.files == s.files
          else next == Published(data) && w in s.temps && s'.files == s.files[hash(data) := s.temps[w]])
    case Published(data) =>
      next == Done(data, Stored) && s'.files == s.files && s'.temps == Without(s.temps, w)
    case Beaten(data) =>
      && next == Compared(data, hash(data) in s.files && s.files[hash(data)] == data)
      && s'.files == s.files && s'.temps == s.temps
    case Compared(data, equal) =>
      next == Done(data, if equal then Stored else Collided) && s'.files == s.files && s'.temps == Without(s.temps, w)
    case _ => false
  }

  datatype Event = Start(w: nat, data: Bytes) | Operate(w: nat) | Raise(w: nat) | Kill(w: nat)

  /** One event: a call starts, performs an operation, raises (and cleans up), or
      its process dies (and does not). */
  ghost predicate Next(hash: Digest, s: Directory, e: Event, s': Directory)
  {
    match e
    case Start(w, data) =>
      w !in s.writers && w !in s.temps && s' == s.(writers := s.writers[w := Starting(data)])
    case Operate(w) =>
      Operation(hash, s, w, s')
    case Raise(w) =>
      && w in s.writers && Running(s.writers[w])
      && s' == s.(writers := s.writers[w := Done(s.writers[w].data, Interrupted)], temps := Without(s.temps, w))
    case Kill(w) =>
      && w in s.writers && Running(s.writers[w])
      && s' == s.(writers := s.writers[w := Killed(s.writers[w].data)])
  }

  /** What a writer's phase says about the directory. */
  ghost predicate Agrees(hash: Digest, s: Directory, w: nat)
    requires w in s.writers
  {
    var holds := (d: Bytes) => hash(d) in s.files && s.files[hash(d)] == d;
    match s.writers[w]
    case Starting(_) => w !in s.temps
    case Found(data) => w !in s.temps && hash(data) in s.files
    case Absent(_) => w !in s.temps
    case Writing(data, n) => n <= |data| && w in s.temps && s.temps[w] == data[..n]
    case Staged(data) => w in s.temps && s.temps[w] == data
    case Published(data) => w in s.temps && holds(data)
    case Beaten(data) => w in s.temps && hash(data) in s.files
    case Compared(data, equal) => w in s.temps && hash(data) in s.files && (equal <==> holds(data))
    case Done(data, o) =>
      && w !in s.temps && (o == Stored ==> holds(data))
      && (o == Collided ==> hash(data) in s.files && !holds(data))
    case Killed(_) => true
  }

  ghost predicate Coherent(hash: Digest, s: Directory)
  {
    && (forall w :: w in s.writers ==> Agrees(hash, s, w))
    && (forall w :: w in s.temps ==> w in s.writers)
  }

  /** Each file held to begin with is there still; each other one holds the
      complete data of some writer, at the address its digest names. */
  ghost predicate Grown(hash: Digest, before: Files, s: Directory)
  {
    && (forall a :: a in before ==> a in s.files && s.files[a] == before[a])
    && (forall a :: a in s.files && a !in before ==>
          hash(s.files[a]) == a && exists w :: w in s.writers && s.writers[w].data == s.files[a])
  }

  lemma FilesKept(hash: Digest, s: Directory, e: Event, s': Directory)
    requires Next(hash, s, e, s')
    ensures forall a :: a in s.files ==> a in s'.files && s'.files[a] == s.files[a]
    ensures forall w :: w in s.writers ==> w in s'.writers && s'.writers[w].data == s.writers[w].data
    ensures forall w :: w in s.writers && s.writers[w].Done? ==> s'.writers[w] == s.writers[w]
  {
  }

  /** The event's own writer keeps what its phase promises. */
  lemma OwnAgrees(hash: Digest, s: Directory, e: Event, s': Directory)
    requires Coherent(hash, s) && Next(hash, s, e, s')
    ensures e.w in s'.writers && Agrees(hash, s', e.w)
  {
    if e.w in s.writers { assert Agrees(hash, s, e.w); }
  }

  lemma CoherentStep(hash: Digest, s: Directory, e: Event, s': Directory)
    requires Coherent(hash, s) && Next(hash, s, e, s')
    ensures Coherent(hash, s')
  {
    FilesKept(hash, s, e, s');
    OwnAgrees(hash, s, e, s');
    forall w | w in s'.writers && w != e.w ensures Agrees(hash, s', w) {
      assert Agrees(hash, s, w) && s'.writers[w] == s.writers[w];
      assert w in s'.temps <==> w in s.temps;
    }
  }

  lemma GrownStep(hash: Digest, before: Files, s: Directory, e: Event, s': Directory)
    requires Coherent(hash, s) && Grown(hash, before, s) && Next(hash, s, e, s')
    ensures Grown(hash, before, s')
  {
    FilesKept(hash, s, e, s');
    if e.w in s.writers { assert Agrees(hash, s, e.w); }
    forall a | a in s'.files && a !in before
      ensures hash(s'.files[a]) == a && exists w :: w in s'.writers && s'.writers[w].data == s'.files[a]
    {
      if a in s.files {
        var w :| w in s.writers && s.writers[w].data == s.files[a];
        assert s'.writers[w].data == s'.files[a];
      } else {
        assert s'.writers[e.w].data == s'.files[a];
      }
    }
  }

  ghost predicate Trace(hash: Digest, tr: seq<Directory>, events: seq<Event>)
  {
    && |tr| == |events| + 1
    && forall i :: 0 <= i < |events| ==> Next(hash, tr[i], events[i], tr[i + 1])
  }

  lemma {:induction false} TraceInvariant(hash: Digest, tr: seq<Directory>, events: seq<Event>, i: nat)
    requires Trace(hash, tr, events) && tr[0].temps == map[] && tr[0].writers == map[] && i < |tr|
    ensures Coherent(hash, tr[i]) && Grown(hash, tr[0].files, tr[i])
  {
    if i > 0 {
      TraceInvariant(hash, tr, events, i - 1);
      assert Next(hash, tr[i - 1], events[i - 1], tr[i]);
      CoherentStep(hash, tr[i - 1], events[i - 1], tr[i]);
      GrownStep(hash, tr[0].files, tr[i - 1], events[i - 1], tr[i]);
    }
  }

  lemma {:induction false} FilesKeptLong(hash: Digest, tr: seq<Directory>, events: seq<Event>, i: nat, j: nat)
    requires Trace(hash, tr, events) && i <= j < |tr|
    ensures forall a :: a in tr[i].files ==> a in tr[j].files && tr[j].files[a] == tr[i].files[a]
    decreases j
  {
    if i < j {
      FilesKeptLong(hash, tr, events, i, j - 1);
      assert Next(hash, tr[j - 1], events[j - 1], tr[j]);
      FilesKept(hash, tr[j - 1], events[j - 1], tr[j]);
    }
  }

  /** For any interleaving of any number of writers, and any digest: bytes once
      present at an address never change; a writer that reports success leaves
      exactly its own bytes there for good; one that reports a collision met
      different bytes, there for good too; a finished writer leaves no temporary
      file; and no address ever holds part of an artifact. */
  lemma PublicationIsSafe(hash: Digest, tr: seq<Directory>, events: seq<Event>, i: nat, j: nat, w: nat)
    requires Trace(hash, tr, events) && tr[0].temps == map[] && tr[0].writers == map[] && i <= j < |tr|
    ensures forall a :: a in tr[i].files ==> a in tr[j].files && tr[j].files[a] == tr[i].files[a]
    ensures w in tr[i].writers && tr[i].writers[w].Done? ==>
              var a, data := hash(tr[i].writers[w].data), tr[i].writers[w].data;
              && w !in tr[i].temps
              && (tr[i].writers[w].outcome == Stored ==> a in tr[j].files && tr[j].files[a] == data)
              && (tr[i].writers[w].outcome == Collided ==> a in tr[j].files && tr[j].files[a] != data)
    ensures forall a :: a in tr[i].files && a !in tr[0].files ==>
              hash(tr[i].files[a]) == a && exists v :: v in tr[i].writers && tr[i].writers[v].data == tr[i].files[a]
  {
    TraceInvariant(hash, tr, events, i);
    FilesKeptLong(hash, tr, events, i, j);
    if w in tr[i].writers { assert Agrees(hash, tr[i], w); }
  }

  /** The answer a finished call gives is the one the sequential contract gives
      when others publish, since any moment i of the call, what is there at its end. */
  lemma AnswersAgree(hash: Digest, tr: seq<Directory>, events: seq<Event>, i: nat, j: nat, w: nat)
    requires Trace(hash, tr, events) && tr[0].temps == map[] && tr[0].writers == map[] && i <= j < |tr|
    requires w in tr[j].writers && tr[j].writers[w].Done? && tr[j].writers[w].outcome != Interrupted
    ensures Storing(hash, tr[i].files, tr[j].files, tr[j].writers[w].data).1.Success? <==>
              tr[j].writers[w].outcome == Stored
  {
    PublicationIsSafe(hash, tr, events, j, j, w);
    PublicationIsSafe(hash, tr, events, i, j, w);
  }

  // ----- A call that is left alone ends with the right answer -----

  /** How many file operations, at most, a call still takes. */
  function Remaining(w: Writer): nat
  {
    match w
    case Starting(data) => |data| + 6
    case Absent(data) => |data| + 5
    case Writing(data, n) => if n <= |data| then |data| - n + 4 else 4
    case Staged(_) => 3
    case Beaten(_) => 2
    case Found(_) => 1
    case Published(_) => 1
    case Compared(_, _) => 1
    case Done(_, _) => 0
    case Killed(_) => 0
  }

  /** A running call can always take its next operation. */
  lemma CanOperate(hash: Digest, s: Directory, w: nat) returns (s': Directory)
    requires Coherent(hash, s) && w in s.writers && Running(s.writers[w])
    ensures Next(hash, s, Operate(w), s')
  {
    assert Agrees(hash, s, w);
    match s.writers[w]
    case Starting(data) =>
      s' := s.(writers := s.writers[w := if hash(data) in s.files then Found(data) else Absent(data)]);
    case Found(data) =>
      s' := s.(writers := s.writers[w := Done(data, if s.files[hash(data)] == data then Stored else Collided)]);
    case Absent(data) =>
      s' := s.(writers := s.writers[w := Writing(data, 0)], temps := s.temps[w := []]);
    case Writing(data, n) =>
      if n < |data| {
        s' := s.(writers := s.writers[w := Writing(data, n + 1)], temps := s.temps[w := data[..n + 1]]);
      } else {
        s' := s.(writers := s.writers[w := Staged(data)]);
      }
    case Staged(data) =>
      if hash(data) in s.files {
        s' := s.(writers := s.writers[w := Beaten(data)]);
      } else {
        s' := s.(writers := s.writers[w := Published(data)], files := s.files[hash(data) := s.temps[w]]);
      }
    case Published(data) =>
      s' := s.(writers := s.writers[w := Done(data, Stored)], temps := Without(s.temps, w));
    case Beaten(data) =>
      s' := s.(writers := s.writers[w := Compared(data, s.files[hash(data)] == data)]);
    case Compared(data, equal) =>
      s' := s.(writers := s.writers[w := Done(data, if equal then Stored else Collided)], temps := Without(s.temps, w));
  }

  /** Each operation brings the call nearer its end, and when it ends by itself it
      answers `Stored` if its bytes are at its address and `Collided` if not. */
  lemma OperationsEnd(hash: Digest, s: Directory, w: nat, s': Directory)
    requires Coherent(hash, s) && Next(hash, s, Operate(w), s') && Running(s.writers[w])
    ensures Remaining(s'.writers[w]) < Remaining(s.writers[w])
    ensures s'.writers[w].data == s.writers[w].data && !s'.writers[w].Killed?
    ensures s'.writers[w].Done? ==>
              s'.writers[w].outcome == if Holds(hash, s'.files, s.writers[w].data) then Stored else Collided
  {
    assert Agrees(hash, s, w);
  }
}
