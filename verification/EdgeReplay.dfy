/** Replay protection on an edge: a signed job is accepted at most once. */
module EdgeReplay {
  import opened Wrappers

  const NANO := 1_000_000_000
  const CLOCK_SKEW := 120

  datatype JobType = Decommission | OtherType

  /** Times in seconds; the signature covers every other field. */
  datatype Job = Job(kind: JobType, jobID: string, nodeID: string, nonce: string, createdAt: int, expiresAt: int,
                     completionToken: string, signature: string)

  datatype Error = InvalidType | WrongNode | Expired | InvalidSignature | Replay | StoreUnavailable

  /** The fields the signature covers.  One signature can be written in several texts. */
  function Unsigned(j: Job): Job { j.(signature := "") }

  /** What an edge knows of its controller: the key, as the texts that verify for a payload, and the
      longest life of a job. */
  datatype Edge = Edge(nodeID: string, verifies: (Job, string) -> bool, maxTTL: int)

  function Unix(now: nat): nat { now / NANO }

  predicate Blank(s: string) { forall c <- s :: c == ' ' || c == '\t' || c == '\n' || c == '\r' }

  predicate TimeOut(j: Job, now: nat, maxTTL: int) {
    j.expiresAt <= Unix(now) || j.createdAt > Unix(now) + CLOCK_SKEW || j.expiresAt - j.createdAt > maxTTL
  }

  /** Everything that can be checked without memory, in order. */
  function Check(j: Job, edge: Edge, now: nat): Option<Error> {
    if j.kind != Decommission then Some(InvalidType)
    else if j.nodeID != edge.nodeID then Some(WrongNode)
    else if TimeOut(j, now, edge.maxTTL) then Some(Expired)
    else if !edge.verifies(Unsigned(j), j.signature) then Some(InvalidSignature)
    else if Blank(j.nonce) || Blank(j.jobID) then Some(Replay)
    else None
  }

  // ---------- in memory ----------

  function MemoryPurged(seen: map<string, int>, now: nat): map<string, int> {
    map n | n in seen && seen[n] * NANO >= now :: seen[n]
  }

  function MemoryVerdict(seen: map<string, int>, j: Job, edge: Edge, now: nat): Option<Error> {
    if Check(j, edge, now).Some? then Check(j, edge, now)
    else if j.nonce in MemoryPurged(seen, now) then Some(Replay) else None
  }

  function MemoryAfter(seen: map<string, int>, j: Job, edge: Edge, now: nat): map<string, int> {
    if Check(j, edge, now).Some? then seen
    else if j.nonce in MemoryPurged(seen, now) then MemoryPurged(seen, now)
    else MemoryPurged(seen, now)[j.nonce := j.expiresAt]
  }

  // ---------- in a file ----------

  /** Hashing is injective here; the node's own id in front keeps entries of different nodes apart. */
  function NonceKey(nodeID: string, nonce: string): string {
    nodeID + "\U{00}" + nonce
  }

  lemma NonceKeyApart(nodeID: string, a: string, b: string)
    requires NonceKey(nodeID, a) == NonceKey(nodeID, b)
    ensures a == b
  {
    assert NonceKey(nodeID, a)[|nodeID| + 1..] == a && NonceKey(nodeID, b)[|nodeID| + 1..] == b;
  }

  function FilePurged(file: map<string, int>, now: nat): map<string, int> {
    map n | n in file && file[n] > Unix(now) :: file[n]
  }

  function FileVerdict(file: map<string, int>, j: Job, edge: Edge, now: nat): Option<Error> {
    if Check(j, edge, now).Some? then Check(j, edge, now)
    else if NonceKey(edge.nodeID, j.nonce) in FilePurged(file, now) then Some(Replay) else None
  }

  /** A refused job leaves the file alone: the purge is written only with the new entry. */
  function FileAfter(file: map<string, int>, j: Job, edge: Edge, now: nat): map<string, int> {
    if FileVerdict(file, j, edge, now).Some? then file
    else FilePurged(file, now)[NonceKey(edge.nodeID, j.nonce) := j.expiresAt]
  }

  class NonceStore {
    var seen: map<string, int>

    constructor ()
      ensures seen == map[]
    {
      seen := map[];
    }

    method Verify(j: Job, edge: Edge, now: nat) returns (err: Option<Error>)
      modifies this
      ensures err == MemoryVerdict(old(seen), j, edge, now) && seen == MemoryAfter(old(seen), j, edge, now)
    {
      if j.kind != Decommission { return Some(InvalidType); }
      if j.nodeID != edge.nodeID { return Some(WrongNode); }
      if TimeOut(j, now, edge.maxTTL) { return Some(Expired); }
      if !edge.verifies(Unsigned(j), j.signature) { return Some(InvalidSignature); }
      if Blank(j.nonce) || Blank(j.jobID) { return Some(Replay); }
      seen := map n | n in seen && !(seen[n] * NANO < now) :: seen[n];
      if j.nonce in seen { return Some(Replay); }
      seen := seen[j.nonce := j.expiresAt];
      return None;
    }
  }

  /** The file, which survives restarts. */
  class Disk {
    var nonces: map<string, int>

    constructor ()
      ensures nonces == map[]
    {
      nonces := map[];
    }
  }

  datatype Outcome = Accepted | Refused(error: Error) | Died

  class PersistentNonceStore {
    const disk: Disk

    constructor (disk: Disk)
      ensures this.disk == disk
    {
      this.disk := disk;
    }

    /** The new file replaces the old one in a single rename; the process may die on either side
        of it.  Acceptance implies the entry is durable. */
    method Verify(j: Job, edge: Edge, now: nat) returns (r: Outcome)
      modifies disk
      ensures FileStep(old(disk.nonces), Call(j, now), r, edge, disk.nonces)
      ensures r.Refused? ==> r.error == StoreUnavailable || FileVerdict(old(disk.nonces), j, edge, now) == Some(r.error)
    {
      var bad := Check(j, edge, now);
      if bad.Some? { return Refused(bad.value); }
      var readable, written, alive: bool := *, *, *;
      if !readable { return Refused(StoreUnavailable); }
      var seen := map n | n in disk.nonces && disk.nonces[n] > Unix(now) :: disk.nonces[n];
      var key := NonceKey(edge.nodeID, j.nonce);
      if key in seen && seen[key] > Unix(now) { return Refused(Replay); }
      seen := seen[key := j.expiresAt];
      if !written { return if alive then Refused(StoreUnavailable) else Died; }
      disk.nonces := seen;
      r := if alive then Accepted else Died;
    }
  }

  // ---------- runs ----------

  datatype Call = Call(job: Job, now: nat)

  /** The clock does not go back. */
  ghost predicate InTime(calls: seq<Call>) {
    forall i, k :: 0 <= i < k < |calls| ==> calls[i].now <= calls[k].now
  }

  /** What became of each call; dying and failing to write may happen at any of them. */
  ghost predicate FileRun(before: map<string, int>, calls: seq<Call>, outcomes: seq<Outcome>, edge: Edge,
                          after: map<string, int>)
    decreases |calls|
  {
    |outcomes| == |calls|
    && if calls == [] then after == before
       else exists mid ::
              FileStep(before, calls[0], outcomes[0], edge, mid) && FileRun(mid, calls[1..], outcomes[1..], edge, after)
  }

  /** What a call of the persistent store promises. */
  ghost predicate FileStep(before: map<string, int>, call: Call, r: Outcome, edge: Edge, after: map<string, int>) {
    match r
    case Accepted =>
      FileVerdict(before, call.job, edge, call.now).None? && after == FileAfter(before, call.job, edge, call.now)
    case Refused(e) => after == before
    case Died => after == before || after == FileAfter(before, call.job, edge, call.now)
  }

  lemma FirstStep(before: map<string, int>, calls: seq<Call>, outcomes: seq<Outcome>, edge: Edge,
                  after: map<string, int>)
    returns (mid: map<string, int>)
    requires FileRun(before, calls, outcomes, edge, after) && calls != []
    ensures FileStep(before, calls[0], outcomes[0], edge, mid)
    ensures FileRun(mid, calls[1..], outcomes[1..], edge, after)
  {
    mid :| FileStep(before, calls[0], outcomes[0], edge, mid) && FileRun(mid, calls[1..], outcomes[1..], edge, after);
  }

  /** While the entry of a job is there with the job's own expiry, the job is refused. */
  ghost predicate Remembers(file: map<string, int>, j: Job, edge: Edge) {
    NonceKey(edge.nodeID, j.nonce) in file && file[NonceKey(edge.nodeID, j.nonce)] == j.expiresAt
  }

  /** No step forgets a job that has not expired, and none accepts its nonce. */
  lemma StepRemembers(before: map<string, int>, call: Call, r: Outcome, edge: Edge, after: map<string, int>, j: Job,
                      now: nat)
    requires FileStep(before, call, r, edge, after) && call.now <= now
    requires Remembers(before, j, edge) && Unix(now) < j.expiresAt
    ensures Remembers(after, j, edge) && (r == Accepted ==> call.job.nonce != j.nonce)
  {
    assert Unix(call.now) <= Unix(now);
    var key := NonceKey(edge.nodeID, j.nonce);
    assert key in FilePurged(before, call.now);
    if NonceKey(edge.nodeID, call.job.nonce) == key { NonceKeyApart(edge.nodeID, call.job.nonce, j.nonce); }
  }

  /** From an accepted job on, its nonce is not accepted before it expires, whatever happens to the process. */
  lemma {:induction false} NeverAgain(before: map<string, int>, calls: seq<Call>, outcomes: seq<Outcome>, edge: Edge,
                                      after: map<string, int>, j: Job, k: nat)
    requires FileRun(before, calls, outcomes, edge, after) && InTime(calls) && Remembers(before, j, edge)
    requires k < |calls| && outcomes[k] == Accepted && calls[k].job.nonce == j.nonce
    ensures j.expiresAt <= Unix(calls[k].now)
    decreases |calls|
  {
    if Unix(calls[k].now) < j.expiresAt {
      var mid := FirstStep(before, calls, outcomes, edge, after);
      StepRemembers(before, calls[0], outcomes[0], edge, mid, j, calls[k].now);
      if k > 0 { NeverAgain(mid, calls[1..], outcomes[1..], edge, after, j, k - 1); }
    }
  }

  lemma {:induction false} AcceptedIsTimely(before: map<string, int>, calls: seq<Call>, outcomes: seq<Outcome>,
                                            edge: Edge, after: map<string, int>, k: nat)
    requires FileRun(before, calls, outcomes, edge, after) && k < |calls| && outcomes[k] == Accepted
    ensures !TimeOut(calls[k].job, calls[k].now, edge.maxTTL)
    decreases |calls|
  {
    var mid := FirstStep(before, calls, outcomes, edge, after);
    if k > 0 { AcceptedIsTimely(mid, calls[1..], outcomes[1..], edge, after, k - 1); }
  }

  /** Over any run with restarts, purges and failures: of two accepted jobs with one nonce the
      second comes when the first has expired. */
  lemma {:induction false} SameNonceSeparated(before: map<string, int>, calls: seq<Call>, outcomes: seq<Outcome>,
                                              edge: Edge, after: map<string, int>, i: nat, k: nat)
    requires FileRun(before, calls, outcomes, edge, after) && InTime(calls)
    requires i < k < |calls| && outcomes[i] == Accepted && outcomes[k] == Accepted
    requires calls[i].job.nonce == calls[k].job.nonce
    ensures calls[i].job.expiresAt <= Unix(calls[k].now)
    decreases |calls|
  {
    var mid := FirstStep(before, calls, outcomes, edge, after);
    if i == 0 {
      NeverAgain(mid, calls[1..], outcomes[1..], edge, after, calls[0].job, k - 1);
    } else {
      SameNonceSeparated(mid, calls[1..], outcomes[1..], edge, after, i - 1, k - 1);
    }
  }

  /** So no payload is accepted twice, in whatever text its signature is written. */
  lemma AcceptedOnce(before: map<string, int>, calls: seq<Call>, outcomes: seq<Outcome>, edge: Edge,
                     after: map<string, int>, i: nat, k: nat)
    requires FileRun(before, calls, outcomes, edge, after) && InTime(calls)
    requires i < k < |calls| && outcomes[i] == Accepted && outcomes[k] == Accepted
    ensures Unsigned(calls[i].job) != Unsigned(calls[k].job)
  {
    AcceptedIsTimely(before, calls, outcomes, edge, after, k);
    if calls[i].job.nonce == calls[k].job.nonce {
      SameNonceSeparated(before, calls, outcomes, edge, after, i, k);
    }
  }

  // ---------- the two stores compared ----------

  /** What could still be refused is known to both stores. */
  ghost predicate Mirrors(seen: map<string, int>, file: map<string, int>, edge: Edge, clock: nat) {
    forall n: string ::
      && ((n in seen && seen[n] > Unix(clock)) <==>
          (NonceKey(edge.nodeID, n) in file && file[NonceKey(edge.nodeID, n)] > Unix(clock)))
      && (n in seen && seen[n] > Unix(clock) ==> seen[n] == file[NonceKey(edge.nodeID, n)])
  }

  lemma MirrorsLater(seen: map<string, int>, file: map<string, int>, edge: Edge, clock: nat, now: nat)
    requires Mirrors(seen, file, edge, clock) && clock <= now
    ensures Mirrors(seen, file, edge, now)
  {
    assert Unix(clock) <= Unix(now);
  }

  lemma ExpiryAt(expiry: int, now: nat)
    ensures expiry * NANO >= now <==> expiry > Unix(now) || expiry * NANO == now
  {
  }

  /** One call: they answer alike unless the nonce belongs to an entry that expires at this very instant. */
  lemma VerdictsDiffer(seen: map<string, int>, file: map<string, int>, j: Job, edge: Edge, clock: nat, now: nat)
    requires Mirrors(seen, file, edge, clock) && clock <= now
    ensures MemoryVerdict(seen, j, edge, now) != FileVerdict(file, j, edge, now)
            <==> Check(j, edge, now).None? && j.nonce in seen && seen[j.nonce] * NANO == now
  {
    MirrorsLater(seen, file, edge, clock, now);
    var key := NonceKey(edge.nodeID, j.nonce);
    assert key in FilePurged(file, now) <==> j.nonce in seen && seen[j.nonce] > Unix(now);
    hide Check, FilePurged, Mirrors;
    if j.nonce in seen { ExpiryAt(seen[j.nonce], now); }
  }

  lemma AlikeMirrors(seen: map<string, int>, file: map<string, int>, j: Job, edge: Edge, clock: nat, now: nat)
    requires Mirrors(seen, file, edge, clock) && clock <= now
    requires MemoryVerdict(seen, j, edge, now) == FileVerdict(file, j, edge, now)
    ensures Mirrors(MemoryAfter(seen, j, edge, now), FileAfter(file, j, edge, now), edge, now)
  {
    MirrorsLater(seen, file, edge, clock, now);
    var m, f := MemoryAfter(seen, j, edge, now), FileAfter(file, j, edge, now);
    forall n: string ensures
      && ((n in m && m[n] > Unix(now)) <==> (NonceKey(edge.nodeID, n) in f && f[NonceKey(edge.nodeID, n)] > Unix(now)))
      && (n in m && m[n] > Unix(now) ==> m[n] == f[NonceKey(edge.nodeID, n)])
    {
      if NonceKey(edge.nodeID, n) == NonceKey(edge.nodeID, j.nonce) { NonceKeyApart(edge.nodeID, n, j.nonce); }
    }
  }

  function MemoryRun(seen: map<string, int>, calls: seq<Call>, edge: Edge): seq<Option<Error>>
    decreases |calls|
  {
    if calls == [] then []
    else [MemoryVerdict(seen, calls[0].job, edge, calls[0].now)]
         + MemoryRun(MemoryAfter(seen, calls[0].job, edge, calls[0].now), calls[1..], edge)
  }

  function UndisturbedFileRun(file: map<string, int>, calls: seq<Call>, edge: Edge): seq<Option<Error>>
    decreases |calls|
  {
    if calls == [] then []
    else [FileVerdict(file, calls[0].job, edge, calls[0].now)]
         + UndisturbedFileRun(FileAfter(file, calls[0].job, edge, calls[0].now), calls[1..], edge)
  }

  /** A nonce names one job: the ones presented, and the ones in store. */
  ghost predicate NoncesUnique(seen: map<string, int>, calls: seq<Call>) {
    (forall i, k :: 0 <= i < |calls| && 0 <= k < |calls| && calls[i].job.nonce == calls[k].job.nonce
                   ==> Unsigned(calls[i].job) == Unsigned(calls[k].job))
    && forall i :: 0 <= i < |calls| && calls[i].job.nonce in seen ==> seen[calls[i].job.nonce] == calls[i].job.expiresAt
  }

  lemma UniqueIsAlike(seen: map<string, int>, file: map<string, int>, calls: seq<Call>, edge: Edge, clock: nat)
    requires Mirrors(seen, file, edge, clock) && calls != [] && clock <= calls[0].now && NoncesUnique(seen, calls)
    ensures MemoryVerdict(seen, calls[0].job, edge, calls[0].now) == FileVerdict(file, calls[0].job, edge, calls[0].now)
    ensures NoncesUnique(MemoryAfter(seen, calls[0].job, edge, calls[0].now), calls[1..])
  {
    var j, now := calls[0].job, calls[0].now;
    hide FileVerdict, Mirrors;
    VerdictsDiffer(seen, file, j, edge, clock, now);
    if j.nonce in seen && seen[j.nonce] * NANO == now { assert Unix(now) == j.expiresAt; }
    var rest := calls[1..];
    forall i | 0 <= i < |rest| ensures rest[i] == calls[i + 1] {}
  }

  /** With unique nonces, and while nothing fails, the two stores give the same answers. */
  lemma {:induction false} StoresAgree(seen: map<string, int>, file: map<string, int>, calls: seq<Call>, edge: Edge,
                                       clock: nat)
    requires Mirrors(seen, file, edge, clock) && InTime(calls) && (calls != [] ==> clock <= calls[0].now)
    requires NoncesUnique(seen, calls)
    ensures MemoryRun(seen, calls, edge) == UndisturbedFileRun(file, calls, edge)
    decreases |calls|
  {
    hide MemoryVerdict, FileVerdict, MemoryAfter, FileAfter, Mirrors, NoncesUnique;
    if calls != [] {
      var j, now := calls[0].job, calls[0].now;
      UniqueIsAlike(seen, file, calls, edge, clock);
      AlikeMirrors(seen, file, j, edge, clock, now);
      assert InTime(calls[1..]) && (calls[1..] != [] ==> now <= calls[1..][0].now);
      StoresAgree(MemoryAfter(seen, j, edge, now), FileAfter(file, j, edge, now), calls[1..], edge, now);
    }
  }

  /** With a nonce used twice they can differ: the second job comes when the first one's entry
      expires to the nanosecond. */
  lemma ReusedNonceCanDiffer(verifies: (Job, string) -> bool, unsigned: Job, signature: string)
    requires unsigned == Job(Decommission, "b", "n", "x", 10, 20, "", "") && verifies(unsigned, signature)
    ensures var j, edge, now := unsigned.(signature := signature), Edge("n", verifies, 60), 10 * NANO;
            var seen, file := map["x" := 10], map[NonceKey("n", "x") := 10];
            && Mirrors(seen, file, edge, 0)
            && MemoryVerdict(seen, j, edge, now) == Some(Replay) && FileVerdict(file, j, edge, now) == None
  {
    var j, edge := unsigned.(signature := signature), Edge("n", verifies, 60);
    var seen, file := map["x" := 10], map[NonceKey("n", "x") := 10];
    forall n: string ensures NonceKey("n", n) in file <==> n in seen {
      if NonceKey("n", n) in file { NonceKeyApart("n", n, "x"); }
    }
    assert Mirrors(seen, file, edge, 0);
    assert Unsigned(j) == unsigned && !Blank("x") && !Blank("b") by { assert 'x' in "x" && 'b' in "b"; }
    assert Check(j, edge, 10 * NANO) == None;
    assert "x" in MemoryPurged(seen, 10 * NANO);
  }

  /** Any two jobs do it that share a nonce, if the second comes when the first expires to the
      nanosecond: the store in memory refuses it as a replay, the one in the file never does. */
  method ReusedNonceTwoWays(edge: Edge, first: Job, second: Job, early: nat, at: nat)
    returns (memory: seq<Option<Error>>, file: seq<Outcome>)
    requires Check(first, edge, early).None? && Check(second, edge, at).None? && first.nonce == second.nonce
    requires early <= at == first.expiresAt * NANO
    ensures memory == [None, Some(Replay)]
    ensures |file| == 2 && file[0] != Refused(Replay) && file[1] != Refused(Replay)
  {
    var seen := new NonceStore();
    var m1 := seen.Verify(first, edge, early);
    var m2 := seen.Verify(second, edge, at);
    memory := [m1, m2];
    var disk := new Disk();
    var store := new PersistentNonceStore(disk);
    var f1 := store.Verify(first, edge, early);
    // the first entry is gone by then
    assert NonceKey(edge.nodeID, second.nonce) !in FilePurged(disk.nonces, at);
    var f2 := store.Verify(second, edge, at);
    file := [f1, f2];
  }
}
