/** Content-addressed evidence: references, verification, and publication over
    a directory other writers share. */
module Evidence {
  import opened Text

  datatype EvidenceError = BadReference | ReferenceMismatch | Missing | NotRegular | Tampered | Collision

  /** The digest function, of which only its output format is known. */
  type Digest = Bytes -> string

  predicate IsHex(c: char)
  {
    '0' <= c <= '9' || 'a' <= c <= 'f'
  }

  predicate IsSha256(s: string)
  {
    |s| == 64 && forall i :: 0 <= i < 64 ==> IsHex(s[i])
  }

  ghost predicate Digests(hash: Digest)
  {
    forall data :: IsSha256(hash(data))
  }

  const PREFIX := "evidence/paa/"
  const SUFFIX := "/evidence.json"

  function RefFor(sha256: string): string
  {
    PREFIX + sha256 + SUFFIX
  }

  /** The address a reference resolves to, for exactly the accepted shape. */
  function Resolve(ref: string): Option<string>
  {
    if |ref| == |PREFIX| + 64 + |SUFFIX| && ref[..|PREFIX|] == PREFIX && ref[|PREFIX| + 64..] == SUFFIX
       && IsSha256(ref[|PREFIX|..|PREFIX| + 64])
    then Some(ref[|PREFIX|..|PREFIX| + 64])
    else None
  }

  /** Printing then resolving a reference returns its digest, and resolving only
      ever accepts printed references: nothing resolves outside the address space. */
  lemma ReferenceRoundTrip(sha256: string, ref: string)
    ensures IsSha256(sha256) <==> Resolve(RefFor(sha256)) == Some(sha256)
    ensures Resolve(ref).Some? <==> exists s :: IsSha256(s) && ref == RefFor(s)
    ensures Resolve(ref).Some? ==> IsSha256(Resolve(ref).value) && ref == RefFor(Resolve(ref).value)
  {
    var printed := RefFor(sha256);
    if IsSha256(sha256) {
      assert printed[..|PREFIX|] == PREFIX;
      assert printed[|PREFIX|..|PREFIX| + 64] == sha256;
      assert printed[|PREFIX| + 64..] == SUFFIX;
    }
    if Resolve(ref).Some? {
      assert ref == ref[..|PREFIX|] + ref[|PREFIX|..|PREFIX| + 64] + ref[|PREFIX| + 64..];
    }
    if s :| IsSha256(s) && ref == RefFor(s) {
      assert ref[..|PREFIX|] == PREFIX && ref[|PREFIX|..|PREFIX| + 64] == s && ref[|PREFIX| + 64..] == SUFFIX;
    }
  }

  /** Regular files by content address. */
  type Files = map<string, Bytes>

  function Verify(hash: Digest, files: Files, ref: string, sha256: string): Result<Bytes, EvidenceError>
  {
    match Resolve(ref)
    case None => Failure(BadReference)
    case Some(address) =>
      if address != sha256 then Failure(ReferenceMismatch)
      else if address !in files then Failure(Missing)
      else if hash(files[address]) != sha256 then Failure(Tampered)
      else Success(files[address])
  }

  /** Verification succeeds exactly for a printed reference to the recorded
      digest whose file holds bytes of that digest, and yields those bytes. */
  lemma VerifyExactly(hash: Digest, files: Files, ref: string, sha256: string, data: Bytes)
    ensures Verify(hash, files, ref, sha256) == Success(data) <==>
              && IsSha256(sha256) && ref == RefFor(sha256)
              && sha256 in files && files[sha256] == data && hash(data) == sha256
  {
    ReferenceRoundTrip(sha256, ref);
  }

  /** s is a digest, and ref the reference that names it. */
  predicate Names(ref: string, s: string)
  {
    && |s| == 64 && (forall i :: 0 <= i < 64 ==> s[i] in "0123456789abcdef")
    && ref == "evidence/paa/" + s + "/evidence.json"
  }

  lemma NamesIff(ref: string, s: string)
    ensures Names(ref, s) <==> IsSha256(s) && ref == RefFor(s)
  {
    forall c: char ensures IsHex(c) <==> c in "0123456789abcdef" {
    }
  }

  /** Verification names the first thing wrong: the reference, its agreement with the
      recorded digest, the file, its bytes. */
  lemma VerifyAnswers(hash: Digest, files: Files, ref: string, sha256: string)
    ensures var v := Verify(hash, files, ref, sha256);
            && (v == Failure(BadReference) <==> forall s :: !Names(ref, s))
            && (v == Failure(ReferenceMismatch) <==> exists s :: Names(ref, s) && s != sha256)
            && (v == Failure(Missing) <==> Names(ref, sha256) && sha256 !in files)
            && (v == Failure(Tampered) <==> Names(ref, sha256) && sha256 in files && hash(files[sha256]) != sha256)
            && (v.Success? <==> Names(ref, sha256) && sha256 in files && hash(files[sha256]) == sha256)
            && (v.Success? ==> v.value == files[sha256])
  {
    forall s ensures Names(ref, s) <==> IsSha256(s) && ref == RefFor(s) { NamesIff(ref, s); }
    ReferenceRoundTrip(sha256, ref);
    forall s | Names(ref, s) ensures Resolve(ref) == Some(s) { ReferenceRoundTrip(s, ref); }
    if Resolve(ref).Some? { assert Names(ref, Resolve(ref).value); }
  }

  /** The directory holds data at its own address. */
  predicate Holds(hash: Digest, files: Files, data: Bytes)
  {
    hash(data) in files && files[hash(data)] == data
  }

  /** Files after other writers' publications: nothing present is replaced. */
  function Publish(files: Files, more: Files): Files
  {
    more + files
  }

  /** What storing data leads to when others publish `between` after the
      existence check: the files, and the answer.  Bytes already at the address
      stay, and only equal bytes are accepted. */
  function Storing(hash: Digest, before: Files, between: Files, data: Bytes)
    : (o: (Files, Result<(string, string), EvidenceError>))
    ensures forall a :: a in before ==> a in o.0 && o.0[a] == before[a]
    ensures o.1.Success? <==> Holds(hash, o.0, data)
    ensures o.1.Success? ==> o.1.value == ("evidence/paa/" + hash(data) + "/evidence.json", hash(data))
    ensures o.1.Failure? ==> o.1.error == Collision && hash(data) in o.0
    ensures forall a :: a in o.0 && a !in before && a != hash(data) ==> a in between && o.0[a] == between[a]
    ensures hash(data) !in before ==> forall a :: a in between ==> a in o.0
  {
    var sha256 := hash(data);
    var seen := if sha256 in before then before else Publish(before, between);
    var after := if sha256 in seen then seen else seen[sha256 := data];
    (after, if after[sha256] == data then Success((RefFor(sha256), sha256)) else Failure(Collision))
  }

  class EvidenceRoot {
    var files: Files
    var temps: map<nat, Bytes>

    constructor ()
      ensures files == map[] && temps == map[]
    {
      files, temps := map[], map[];
    }

    /** Accepts the artifact already at `address` exactly when it verifies as the
        caller's own bytes. */
    method AcceptExisting(address: string, data: Bytes) returns (r: Result<(string, string), EvidenceError>)
      ensures r.Success? <==> address in files && files[address] == data
      ensures r.Success? ==> r.value == (RefFor(address), address)
      ensures r.Failure? ==> r.error == if address in files then Collision else NotRegular
      ensures forall hash {:trigger Digests(hash)} :: Digests(hash) && hash(data) == address ==>
                (r.Success? <==> Verify(hash, files, RefFor(address), address) == Success(data))
    {
      forall hash | Digests(hash) && hash(data) == address
        ensures Verify(hash, files, RefFor(address), address) == Success(data) <==>
                  address in files && files[address] == data
      {
        VerifyExactly(hash, files, RefFor(address), address, data);
      }
      if address !in files { return Failure(NotRegular); }
      if files[address] != data { return Failure(Collision); }
      r := Success((RefFor(address), address));
    }

    /** Checks, writes a temporary file, links it without clobbering, and cleans
        up.  `between` is what other writers publish after the check; `tmp` is
        the fresh temporary name. */
    method StoreEvidence(hash: Digest, data: Bytes, between: Files, tmp: nat)
      returns (r: Result<(string, string), EvidenceError>)
      requires Digests(hash) && tmp !in temps
      modifies this
      ensures (files, r) == Storing(hash, old(files), between, data)
      ensures temps == old(temps)
    {
      var sha256 := hash(data);
      ReferenceRoundTrip(sha256, "");
      var address := Resolve(RefFor(sha256)).value;
      if address in files {
        r := AcceptExisting(address, data);
        return;
      }
      files := Publish(files, between);
      temps := temps[tmp := data];
      if address !in files {
        files := files[address := temps[tmp]];
        r := Success((RefFor(sha256), sha256));
      } else {
        r := AcceptExisting(address, data);
      }
      temps := temps - {tmp};
      assert temps == old(temps);
    }
  }

  /** A stored artifact verifies, and keeps verifying to the same bytes whatever
      is published later; nothing that verified before is disturbed. */
  lemma StoredVerifies(hash: Digest, before: Files, between: Files, data: Bytes, later: Files)
    requires Digests(hash)
    ensures var (after, r) := Storing(hash, before, between, data);
            && (r.Success? ==> Verify(hash, Publish(after, later), r.value.0, r.value.1) == Success(data))
            && forall ref, sha, kept :: Verify(hash, before, ref, sha) == Success(kept) ==>
                 Verify(hash, Publish(after, later), ref, sha) == Success(kept)
  {
    var (after, r) := Storing(hash, before, between, data);
    if r.Success? { VerifyExactly(hash, Publish(after, later), r.value.0, r.value.1, data); }
  }
}
