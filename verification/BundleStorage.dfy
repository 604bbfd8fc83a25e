/**
 Content-addressed bundles on disk, written to a temporary name and renamed into place. Each file
 operation of each writer is a step of its own; writers may fail or vanish between any two of them.
 The digest is a parameter; a crash loses processes, not completed file operations.
 */
module BundleStorage {
  import opened Common
  import EngineRegistry

  type Bytes = seq<bv8>
  type Hash = Bytes -> string

  datatype Path = Final(digest: string) | Temp(id: nat)

  type Files = map<Path, Bytes>

  predicate IsValidDigest(s: string) {
    |s| == 64 && forall c | c in s :: '0' <= c <= '9' || 'a' <= c <= 'f'
  }

  /** The digest function yields 64 lower-case hexadecimal characters. */
  ghost predicate IsDigestFunction(sha: Hash) {
    forall b :: IsValidDigest(sha(b))
  }

  predicate Has(files: Files, digest: string) {
    IsValidDigest(digest) && Final(digest) in files
  }

  function Get(files: Files, digest: string): Option<Bytes> {
    if Has(files, digest) then Some(files[Final(digest)]) else None
  }

  /** A name is a digest exactly when it is sixty-four lower-case hexadecimal digits; any other is never there. */
  lemma DigestNamesExactly(files: Files, digest: string)
    ensures IsValidDigest(digest) <==> |digest| == 64 && forall i | 0 <= i < 64 :: digest[i] in LOWER_HEX
    ensures Get(files, digest) == if IsValidDigest(digest) && Final(digest) in files then Some(files[Final(digest)])
                                  else None
  {
    if IsValidDigest(digest) {
      forall i | 0 <= i < 64 ensures digest[i] in LOWER_HEX {
        assert digest[i] in digest;
        LowerHexExactly(digest[i]);
      }
    } else if |digest| == 64 {
      var c :| c in digest && !('0' <= c <= '9' || 'a' <= c <= 'f');
      LowerHexExactly(c);
    }
  }

  /** A whole `put` with nothing in between and no failure. */
  function Put(files: Files, sha: Hash, bytes: Bytes): Files {
    if Has(files, sha(bytes)) then files else files[Final(sha(bytes)) := bytes]
  }

  // ---- Writers in flight ---------------------------------------------------

  /** A writer has `done` bytes of its own temporary file on disk. */
  datatype Writer = Writer(bytes: Bytes, temp: nat, done: nat)

  /** `given` is every byte string ever handed to `put`. */
  datatype System = System(files: Files, writers: map<nat, Writer>, nextTemp: nat, given: set<Bytes>)

  datatype Step =
    | BeginPut(pid: nat, bytes: Bytes)
    | WriteSome(pid: nat, upTo: nat)
    | Rename(pid: nat)
    | Fail(pid: nat, unlinked: bool)
    | Crash
    | Lose(path: Path)

  function Next(s: System, sha: Hash, step: Step): System {
    match step
    case BeginPut(pid, bytes) =>
      if pid in s.writers then s
      else
        var t := s.(given := s.given + {bytes});
        if Has(s.files, sha(bytes)) then t
        else t.(writers := s.writers[pid := Writer(bytes, s.nextTemp, 0)], nextTemp := s.nextTemp + 1)
    case WriteSome(pid, upTo) =>
      if pid !in s.writers || !(s.writers[pid].done <= upTo <= |s.writers[pid].bytes|) then s
      else
        var w := s.writers[pid];
        s.(files := s.files[Temp(w.temp) := w.bytes[..upTo]], writers := s.writers[pid := w.(done := upTo)])
    case Rename(pid) =>
      if pid !in s.writers || s.writers[pid].done < |s.writers[pid].bytes|
        || Temp(s.writers[pid].temp) !in s.files then s
      else
        var w := s.writers[pid];
        s.(files := s.files[Final(sha(w.bytes)) := s.files[Temp(w.temp)]] - {Temp(w.temp)},
           writers := s.writers - {pid})
    case Fail(pid, unlinked) =>
      if pid !in s.writers then s
      else s.(files := if unlinked then s.files - {Temp(s.writers[pid].temp)} else s.files,
              writers := s.writers - {pid})
    case Crash => s.(writers := map[])
    case Lose(path) => s.(files := s.files - {path})
  }

  function Run(s: System, sha: Hash, steps: seq<Step>): System
    decreases |steps|
  {
    if steps == [] then s else Run(Next(s, sha, steps[0]), sha, steps[1..])
  }

  const EMPTY := System(map[], map[], 0, {})

  /** What a failure takes with it: a writer and at most its own temporary file, all writers, or one file. */
  lemma FailuresTakeExactly(s: System, sha: Hash, pid: nat, unlinked: bool, path: Path)
    ensures pid in s.writers ==>
              Next(s, sha, Fail(pid, unlinked)) ==
              s.(writers := s.writers - {pid},
                 files := if unlinked then s.files - {Temp(s.writers[pid].temp)} else s.files)
    ensures Next(s, sha, Crash) == s.(writers := map[])
    ensures Next(s, sha, Lose(path)) == s.(files := s.files - {path})
    ensures pid in s.writers ==> forall bytes :: Next(s, sha, BeginPut(pid, bytes)) == s
  {
  }

  /** A visible bundle is whole: it hashes to its name and was given to `put` as it stands. */
  ghost predicate Authentic(files: Files, sha: Hash, given: set<Bytes>) {
    forall d | Final(d) in files :: sha(files[Final(d)]) == d && files[Final(d)] in given
  }

  ghost predicate WriterOk(s: System, w: Writer) {
    && w.temp < s.nextTemp && w.done <= |w.bytes| && w.bytes in s.given
    && (Temp(w.temp) in s.files ==> s.files[Temp(w.temp)] == w.bytes[..w.done])
  }

  ghost predicate Valid(s: System, sha: Hash) {
    && Authentic(s.files, sha, s.given)
    && (forall pid | pid in s.writers :: WriterOk(s, s.writers[pid]))
    && (forall p, q | p in s.writers && q in s.writers && p != q :: s.writers[p].temp != s.writers[q].temp)
    && (forall id: nat | Temp(id) in s.files :: id < s.nextTemp)
  }

  lemma NextKeepsAuthentic(s: System, sha: Hash, step: Step)
    requires Valid(s, sha)
    ensures Authentic(Next(s, sha, step).files, sha, Next(s, sha, step).given)
  {
    if step.Rename? && step.pid in s.writers {
      var w := s.writers[step.pid];
      assert WriterOk(s, w);
      assert w.done == |w.bytes| ==> w.bytes[..w.done] == w.bytes;
    }
  }

  lemma NextKeepsValid(s: System, sha: Hash, step: Step)
    requires Valid(s, sha)
    ensures Valid(Next(s, sha, step), sha)
  {
    NextKeepsAuthentic(s, sha, step);
    hide Authentic, IsValidDigest;
    assert forall pid | pid in s.writers :: WriterOk(s, s.writers[pid]);
  }

  lemma {:induction false} RunKeepsValid(s: System, sha: Hash, steps: seq<Step>)
    requires Valid(s, sha)
    ensures Valid(Run(s, sha, steps), sha)
    decreases |steps|
  {
    if steps != [] {
      NextKeepsValid(s, sha, steps[0]);
      hide Valid, Next;
      RunKeepsValid(Next(s, sha, steps[0]), sha, steps[1..]);
    }
  }

  /** Whatever partial writes, failures and crashes happen, no reader ever sees a bundle that is not its name's. */
  lemma VisibleBundlesAreWhole(sha: Hash, steps: seq<Step>, digest: string)
    ensures var got := Get(Run(EMPTY, sha, steps).files, digest);
            got.Some? ==> sha(got.value) == digest && got.value in Run(EMPTY, sha, steps).given
  {
    RunKeepsValid(EMPTY, sha, steps);
  }

  lemma {:induction false} BundleStays(s: System, sha: Hash, steps: seq<Step>, digest: string)
    requires Valid(s, sha) && Has(s.files, digest) && forall i | 0 <= i < |steps| :: steps[i] != Lose(Final(digest))
    ensures Has(Run(s, sha, steps).files, digest)
    decreases |steps|
  {
    if steps != [] {
      NextKeepsValid(s, sha, steps[0]);
      assert steps[0] != Lose(Final(digest));
      assert Has(Next(s, sha, steps[0]).files, digest);
      hide Next, Valid, Has;
      BundleStays(Next(s, sha, steps[0]), sha, steps[1..], digest);
    }
  }

  /** No step other than losing the file takes a visible bundle away. */
  lemma StoredBundleStaysReadable(sha: Hash, before: seq<Step>, after: seq<Step>, digest: string)
    requires Has(Run(EMPTY, sha, before).files, digest)
    requires forall i | 0 <= i < |after| :: after[i] != Lose(Final(digest))
    ensures var got := Get(Run(Run(EMPTY, sha, before), sha, after).files, digest);
            got.Some? && sha(got.value) == digest
  {
    RunKeepsValid(EMPTY, sha, before);
    BundleStays(Run(EMPTY, sha, before), sha, after, digest);
    RunKeepsValid(Run(EMPTY, sha, before), sha, after);
  }

  /** With no interference, the steps of a writer are `Put`. */
  lemma WriterAloneIsPut(s: System, sha: Hash, pid: nat, bytes: Bytes)
    requires IsDigestFunction(sha) && pid !in s.writers && Temp(s.nextTemp) !in s.files
    ensures var t := Next(Next(Next(s, sha, BeginPut(pid, bytes)), sha, WriteSome(pid, |bytes|)), sha, Rename(pid));
            t.files == Put(s.files, sha, bytes) && t.writers == s.writers
  {
    var s1 := Next(s, sha, BeginPut(pid, bytes));
    if !Has(s.files, sha(bytes)) {
      var s2 := Next(s1, sha, WriteSome(pid, |bytes|));
      assert bytes[..|bytes|] == bytes;
      assert s2.files == s.files[Temp(s.nextTemp) := bytes];
    }
  }

  // ---- Bundles by version and plan -----------------------------------------

  /** The registry row decides first; storage is asked only for the digest that row records. */
  function ReadBundle(builds: seq<EngineRegistry.Build>, files: Files, version: string, plan: string, digest: string)
    : Option<(Bytes, string)>
  {
    var row := EngineRegistry.FindBuild(builds, version, plan);
    if row.None? || EngineRegistry.StoredUnder(row.value) != EngineRegistry.DomainPolicy.Lower(digest) then None
    else
      match Get(files, EngineRegistry.StoredUnder(row.value))
      case None => None
      case Some(bytes) => Some((bytes, EngineRegistry.StoredUnder(row.value)))
  }

  /** The bytes are put back only if they hash to what the row records. */
  function RestoreBytes(builds: seq<EngineRegistry.Build>, files: Files, sha: Hash, version: string, plan: string,
                        bytes: Bytes)
    : Result<Files, EngineRegistry.Refusal>
  {
    var row := EngineRegistry.FindBuild(builds, version, plan);
    if row.None? then Err(EngineRegistry.UnknownBuild)
    else if sha(bytes) != EngineRegistry.StoredUnder(row.value) then Err(EngineRegistry.HashMismatch)
    else Ok(Put(files, sha, bytes))
  }

  /** No two of these byte strings share a digest. */
  ghost predicate CollisionFree(sha: Hash, all: set<Bytes>) {
    forall a, b | a in all && b in all && sha(a) == sha(b) :: a == b
  }

  /**
   For every registry and every history of the disk, a read returns nothing or bytes with the digest that
   was asked for and is recorded for that version and plan; and those are the bytes first published, `original`,
   unless two of the byte strings ever stored collide.
   */
  lemma ReadBundleIsAuthentic(builds: seq<EngineRegistry.Build>, sha: Hash, steps: seq<Step>,
                              version: string, plan: string, digest: string, original: Bytes)
    ensures var s := Run(EMPTY, sha, steps);
            var got := ReadBundle(builds, s.files, version, plan, digest);
            got.Some? ==>
              var row := EngineRegistry.FindBuild(builds, version, plan);
              && row.Some? && got.value.1 == EngineRegistry.StoredUnder(row.value)
              && sha(got.value.0) == got.value.1 == EngineRegistry.DomainPolicy.Lower(digest)
              && (CollisionFree(sha, s.given + {original}) && sha(original) == got.value.1 ==> got.value.0 == original)
  {
    hide EngineRegistry.FindBuild, Run, IsValidDigest;
    var row := EngineRegistry.FindBuild(builds, version, plan);
    if row.Some? {
      VisibleBundlesAreWhole(sha, steps, EngineRegistry.StoredUnder(row.value));
    }
  }

  /** Restoring is refused for any other bytes; when it succeeds the build reads back as exactly the original. */
  lemma RestoreBringsBackOriginal(builds: seq<EngineRegistry.Build>, files: Files, sha: Hash, given: set<Bytes>,
                                  version: string, plan: string, bytes: Bytes, original: Bytes)
    requires IsDigestFunction(sha) && Authentic(files, sha, given) && CollisionFree(sha, given + {bytes, original})
    requires var row := EngineRegistry.FindBuild(builds, version, plan);
             row.Some? && sha(original) == EngineRegistry.StoredUnder(row.value)
    ensures var r := RestoreBytes(builds, files, sha, version, plan, bytes);
            && (r.Ok? <==> bytes == original)
            && (r.Ok? ==> ReadBundle(builds, r.value, version, plan, sha(original)) == Some((original, sha(original))))
  {
  }

  // ---- The driver ----------------------------------------------------------

  /** How a write goes: it works, or breaks off after some bytes with or without its cleanup. */
  datatype Outcome = Works | BreaksAfter(bytes: nat, unlinked: bool)

  class LocalBundleStorage {
    var files: Files
    var ready: bool
    var nextTemp: nat
    const sha: Hash
    ghost var given: set<Bytes>

    ghost predicate Valid()
      reads this
    {
      Authentic(files, sha, given) && forall id: nat | Temp(id) in files :: id < nextTemp
    }

    constructor (sha: Hash)
      ensures Valid() && this.sha == sha && files == map[] && given == {}
    {
      files, ready, nextTemp := map[], false, 0;
      this.sha := sha;
      given := {};
    }

    /** `put`; a failure leaves every visible bundle as it was. */
    method Store(bytes: Bytes, outcome: Outcome) returns (stored: Option<string>)
      requires Valid() && IsValidDigest(sha(bytes))
      modifies this
      ensures Valid() && given == old(given) + {bytes}
      ensures stored == if outcome.Works? || Has(old(files), sha(bytes)) then Some(sha(bytes)) else None
      ensures forall d :: Get(files, d) == Get(if stored.Some? then Put(old(files), sha, bytes) else old(files), d)
      ensures stored.Some? ==> Get(files, sha(bytes)).Some? && sha(Get(files, sha(bytes)).value) == sha(bytes)
    {
      var digest := sha(bytes);
      ready := true;
      given := given + {bytes};
      if Has(files, digest) {
        return Some(digest);
      }
      var temp := Temp(nextTemp);
      nextTemp := nextTemp + 1;
      match outcome {
        case Works =>
          files := files[temp := bytes];
          files := files[Final(digest) := files[temp]] - {temp};
          return Some(digest);
        case BreaksAfter(n, unlinked) =>
          files := files[temp := bytes[..Min(n, |bytes|)]];
          if unlinked {
            files := files - {temp};
          }
          return None;
      }
    }

    method Fetch(digest: string) returns (bytes: Option<Bytes>)
      requires Valid()
      ensures bytes == Get(files, digest)
      ensures bytes.Some? ==> sha(bytes.value) == digest
    {
      if !IsValidDigest(digest) || Final(digest) !in files {
        return None;
      }
      return Some(files[Final(digest)]);
    }
  }
}
