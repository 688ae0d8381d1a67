/** Which interrupted operations can ever be closed, and what the scheduler does within one pass. */
module IngressRecovery {
  import opened Wrappers
  import opened IngressProtocol
  import opened IngressSafety

  // ---------- automatic operations know their node ----------

  /** Verified and rolled-back operations, and automatic ones, have an active node. */
  predicate Anchored(op: Operation) {
    op.phase == Verified || op.phase == RolledBack || op.trigger == AutomaticHealth || op.trigger == AutomaticThreshold
    ==> op.active != ""
  }

  ghost predicate AllAnchored(v: View) {
    forall id <- v.store.history :: Anchored(v.store.history[id])
  }

  lemma AnchoredPersist(v: View, step: Step, op: Operation)
    requires Coherent(v) && AllAnchored(v) && MayPersist(v, step, op)
    ensures Anchored(op)
  {
    if v.store.current.Some? {
      assert Anchored(v.store.Op()) && WellFormed(v.store.Op());
    }
  }

  lemma AnchoredStep(v: View, e: Event)
    requires Coherent(v) && AllAnchored(v) && Allowed(v, e)
    ensures AllAnchored(Next(v, e))
  {
    hide Coherent;
    if e.Persist? {
      AnchoredPersist(v, e.step, e.op);
      hide MayPersist, Anchored;
    }
  }

  lemma {:induction false} AlwaysAnchored(dns: string, log: seq<Event>, k: nat)
    requires Conforms(Fresh(dns), log) && k <= |log|
    ensures AllAnchored(At(dns, log, k))
  {
    if k == 0 {
      assert log[..0] == [];
    } else {
      hide Replay, Conforms, Next, Allowed, Coherent, AllAnchored;
      AlwaysAnchored(dns, log, k - 1);
      AlwaysCoherent(dns, log, k - 1);
      StepAt(dns, log, k - 1);
      AnchoredStep(At(dns, log, k - 1), log[k-1]);
    }
  }

  // ---------- what can be closed ----------

  /** What an administrator's confirmation asks of the record it is to close. */
  predicate Closable(op: Operation) {
    op.previous != "" && op.active != ""
  }

  /** An operation in flight that no call drives, and that lacks one of the two. */
  predicate Stuck(v: View) {
    InFlight(v.store.Op().phase) && !v.drives && !Closable(v.store.Op())
  }

  lemma StuckStep(v: View, e: Event)
    requires Coherent(v) && AllAnchored(v) && Stuck(v) && Allowed(v, e)
    ensures !e.Swap? && !e.Persist? && !e.Restore?
    ensures Stuck(Next(v, e)) && Next(v, e).store.current == v.store.current
  {
    assert v.store.current.Some?;
    assert WellFormed(v.store.Op()) && Anchored(v.store.Op());
  }

  /** Events that touch neither the durable operation nor, by this program, the record. */
  predicate Idles(log: seq<Event>, i: nat, j: nat)
    requires j <= |log|
  {
    forall m :: i <= m < j ==> !log[m].Swap? && !log[m].Persist? && !log[m].Restore?
  }

  /** Nothing is persisted or swapped any more, whatever is called. */
  lemma {:induction false} StuckForever(dns: string, log: seq<Event>, i: nat, j: nat)
    requires Conforms(Fresh(dns), log) && i <= j <= |log| && Stuck(At(dns, log, i))
    ensures Stuck(At(dns, log, j)) && At(dns, log, j).store.current == At(dns, log, i).store.current
    ensures Idles(log, i, j)
  {
    hide Replay, Conforms, Next, Allowed, Coherent, AllAnchored, Stuck;
    if i < j {
      StuckForever(dns, log, i, j - 1);
      StuckNext(dns, log, j - 1);
    }
  }

  lemma StuckNext(dns: string, log: seq<Event>, k: nat)
    requires Conforms(Fresh(dns), log) && k < |log| && Stuck(At(dns, log, k))
    ensures Stuck(At(dns, log, k + 1)) && At(dns, log, k + 1).store.current == At(dns, log, k).store.current
    ensures !log[k].Swap? && !log[k].Persist? && !log[k].Restore?
  {
    hide Replay, Conforms, Next, Allowed, Coherent, AllAnchored, Stuck;
    StepAt(dns, log, k);
    AlwaysCoherent(dns, log, k);
    AlwaysAnchored(dns, log, k);
    StuckStep(At(dns, log, k), log[k]);
  }

  /** In particular an operation left in `preparing`: it names no previous address. */
  lemma PreparingIsATrap(dns: string, log: seq<Event>, i: nat, j: nat)
    requires Conforms(Fresh(dns), log) && i <= j <= |log|
    requires At(dns, log, i).store.Op().phase == Preparing && !At(dns, log, i).drives
    ensures At(dns, log, j).store.current == At(dns, log, i).store.current && !At(dns, log, j).drives
    ensures Idles(log, i, j)
  {
    hide Replay, Conforms, Idles;
    AlwaysCoherent(dns, log, i);
    assert WellFormed(At(dns, log, i).store.Op());
    StuckForever(dns, log, i, j);
  }

  /** The record a confirmation of the previous ingress files at a second of the clock. */
  function Closed(op: Operation, at: int): Operation {
    op.(provider := op.previous, recursive := op.previous, observed := op.active, phase := RolledBack,
        requestVerified := true, rollbackAttempted := true, rollbackVerified := true, completedAt := at,
        error := NoCode)
  }

  /** The administrator sees to it that the original address serves, and confirms. */
  function Closing(op: Operation, at: int): seq<Event> {
    [Enter(ConfirmPrevious(op.id)), OutsideWrite(op.previous), NoIPv6,
     SawRecord(op.previous), SawRecursive(op.previous),
     SawPublic(op.active), Persist(ConfirmRollback, Closed(op, at))]
  }

  /** One more event, and the view after it. */
  lemma Emit(dns: string, log: seq<Event>, v: View, e: Event) returns (longer: seq<Event>, w: View)
    requires Conforms(Fresh(dns), log) && v == Replay(Fresh(dns), log) && Allowed(v, e)
    ensures longer == log + [e] && w == Next(v, e)
    ensures Conforms(Fresh(dns), longer) && w == Replay(Fresh(dns), longer)
  {
    Extend(Fresh(dns), log, e);
    longer, w := log + [e], Next(v, e);
  }

  lemma Two<T>(s: seq<T>, a: T, b: T)
    ensures s + [a] + [b] == s + [a, b]
  {
  }

  lemma Three<T>(s: seq<T>, a: T, b: T, c: T)
    ensures s + [a] + [b] + [c] == s + [a, b, c]
  {
  }

  /** Emits two events whose effect is known. */
  lemma EmitTwo(dns: string, log: seq<Event>, v: View, a: Event, b: Event) returns (longer: seq<Event>, w: View)
    requires Conforms(Fresh(dns), log) && v == Replay(Fresh(dns), log) && Allowed(v, a) && Allowed(Next(v, a), b)
    ensures longer == log + [a, b] && w == Next(Next(v, a), b)
    ensures Conforms(Fresh(dns), longer) && w == Replay(Fresh(dns), longer)
  {
    hide Conforms, Replay, Allowed, Next;
    var l, u := Emit(dns, log, v, a);
    longer, w := Emit(dns, l, u, b);
    Two(log, a, b);
  }

  /** Emits three events whose effect is known. */
  lemma EmitThree(dns: string, log: seq<Event>, v: View, a: Event, b: Event, c: Event)
    returns (longer: seq<Event>, w: View)
    requires Conforms(Fresh(dns), log) && v == Replay(Fresh(dns), log)
    requires Allowed(v, a) && Allowed(Next(v, a), b) && Allowed(Next(Next(v, a), b), c)
    ensures longer == log + [a, b, c] && w == Next(Next(Next(v, a), b), c)
    ensures Conforms(Fresh(dns), longer) && w == Replay(Fresh(dns), longer)
  {
    hide Conforms, Replay, Allowed, Next;
    var l, u := Emit(dns, log, v, a);
    var m, t := Emit(dns, l, u, b);
    longer, w := Emit(dns, m, t, c);
    Three(log, a, b, c);
  }

  ghost predicate Closes(dns: string, log: seq<Event>, more: seq<Event>) {
    Conforms(Fresh(dns), log + more) && !InFlight(Replay(Fresh(dns), log + more).store.Op().phase)
  }

  lemma ClosingCloses(dns: string, log: seq<Event>, at: int)
    requires Conforms(Fresh(dns), log)
    requires var op := Replay(Fresh(dns), log).store.Op(); InFlight(op.phase) && Closable(op)
    ensures Closes(dns, log, Closing(Replay(Fresh(dns), log).store.Op(), at))
  {
    hide Conforms, Replay;
    var v0 := Replay(Fresh(dns), log);
    var op := v0.store.Op();
    var l3, v3 := EmitThree(dns, log, v0, Enter(ConfirmPrevious(op.id)), OutsideWrite(op.previous), NoIPv6);
    assert v3.store == v0.store.(dns := op.previous) && v3.call == ConfirmPrevious(op.id) && v3.ipv4Only
           && v3.forwards == 0 && v3.backs == 0;
    ClosingEnds(dns, l3, v3, op, at);
    assert log + Closing(op, at) == l3 + Closing(op, at)[3..];
  }

  lemma ClosingEnds(dns: string, l3: seq<Event>, v3: View, op: Operation, at: int)
    requires Conforms(Fresh(dns), l3) && v3 == Replay(Fresh(dns), l3) && op == v3.store.Op()
    requires InFlight(op.phase) && Closable(op) && v3.store.dns == op.previous && v3.call == ConfirmPrevious(op.id)
    requires v3.ipv4Only && v3.forwards == 0 && v3.backs == 0
    ensures Closes(dns, l3, Closing(op, at)[3..])
  {
    hide Conforms, Replay;
    var l6, v6 := EmitThree(dns, l3, v3, SawRecord(op.previous), SawRecursive(op.previous), SawPublic(op.active));
    var l7, v7 := Emit(dns, l6, v6, Persist(ConfirmRollback, Closed(op, at)));
    assert l7 == l3 + Closing(op, at)[3..];
  }

  /** An operation in flight that no call drives can be closed, by some continuation of the run,
      exactly when its record names a previous address and an active node. */
  lemma ClosedExactlyWhen(dns: string, log: seq<Event>)
    requires Conforms(Fresh(dns), log)
    requires var v := Replay(Fresh(dns), log); InFlight(v.store.Op().phase) && !v.drives
    ensures (exists more :: Closes(dns, log, more)) <==> Closable(Replay(Fresh(dns), log).store.Op())
  {
    var v := Replay(Fresh(dns), log);
    if Closable(v.store.Op()) {
      ClosingCloses(dns, log, v.store.Op().id / NANOS);
    } else if more :| Closes(dns, log, more) {
      hide Conforms, Replay;
      assert (log + more)[..|log|] == log && (log + more)[..|log + more|] == log + more;
      StuckForever(dns, log + more, |log|, |log + more|);
    }
  }

  // ---------- a first switch, event by event ----------

  const FIRST := ZERO.(id := 1, phase := Preparing, trigger := AdminManual, requested := "n1", record := "r")
  const SUBMITTED := FIRST.(previous := "a0", desired := "a1", phase := SubmittingDNS)
  const WAITING := SUBMITTED.(provider := "a1", phase := WaitingRecursive)
  const VERIFYING := WAITING.(recursive := "a1", phase := VerifyingRequest)
  const SERVING := VERIFYING.(observed := "n1", requestVerified := true, mode := Preferred, active := "n1",
                              phase := Verified)

  const BEGUN: seq<Event> := [Enter(AdminSwitch("n1", Preferred)), Persist(Begin, FIRST)]
  const VETTING: seq<Event> := [Vetted("n1"), Probed("n1", "a1"), MediaReady("n1")]
  const READING: seq<Event> := [SawRecord("a0"), NoIPv6]
  const SUBMISSION: seq<Event> := VETTING + READING + [Persist(Submit, SUBMITTED)]

  lemma Reset<T>(m: map<nat, T>, id: nat, a: T, b: T)
    ensures m[id := a][id := b] == m[id := b]
  {
  }

  lemma Begun() returns (v: View)
    ensures Conforms(Fresh("a0"), BEGUN) && v == Replay(Fresh("a0"), BEGUN)
    ensures v.store == Store(Some(FIRST), map[1 := FIRST], "a0") && v.call == AdminSwitch("n1", Preferred) && v.drives
    ensures v.forwards == 0 && v.backs == 0 && v.known == None
  {
    var log0: seq<Event>, v0 := [], Fresh("a0");
    var log1, v1 := Emit("a0", log0, v0, BEGUN[0]);
    var log2, v2 := Emit("a0", log1, v1, BEGUN[1]);
    assert log2 == BEGUN;
    v := v2;
  }

  /** Everything a first switch must have seen before it submits. */
  lemma Checked() returns (log: seq<Event>, v: View)
    ensures Conforms(Fresh("a0"), log) && v == Replay(Fresh("a0"), log) && log == BEGUN + VETTING + READING
    ensures v.store == Store(Some(FIRST), map[1 := FIRST], "a0") && v.call == AdminSwitch("n1", Preferred) && v.drives
    ensures v.forwards == 0 && v.backs == 0 && v.known == Some("a0") && v.ipv4Only
    ensures v.vetted == Some("n1") && v.probed == Some(("n1", "a1")) && v.media == Some("n1")
  {
    hide Conforms, Replay;
    var v0 := Begun();
    var l3, v3 := EmitThree("a0", BEGUN, v0, VETTING[0], VETTING[1], VETTING[2]);
    log, v := EmitTwo("a0", l3, v3, READING[0], READING[1]);
  }

  lemma Submitted() returns (v: View)
    ensures Conforms(Fresh("a0"), BEGUN + SUBMISSION) && v == Replay(Fresh("a0"), BEGUN + SUBMISSION)
    ensures v.store == Store(Some(SUBMITTED), map[1 := SUBMITTED], "a0") && v.call == AdminSwitch("n1", Preferred)
    ensures v.drives
    ensures v.forwards == 0 && v.backs == 0
  {
    hide Conforms, Replay;
    var l0, v0 := Checked();
    var log;
    log, v := Emit("a0", l0, v0, Persist(Submit, SUBMITTED));
    Pieces(BEGUN, VETTING, READING, [Persist(Submit, SUBMITTED)]);
  }

  lemma Pieces<T>(s: seq<T>, a: seq<T>, b: seq<T>, c: seq<T>)
    ensures s + a + b + c == s + (a + b + c)
  {
  }

  /** Both kinds of stuck operation are within reach of a first installation: a first switch whose
      call ends while `preparing`, and one whose call ends once it has submitted. */
  lemma FirstSwitchesCanBeStuck(call: Call)
    ensures Conforms(Fresh("a0"), BEGUN + [Enter(call)]) && Stuck(Replay(Fresh("a0"), BEGUN + [Enter(call)]))
    ensures Replay(Fresh("a0"), BEGUN + [Enter(call)]).store.Op().previous == ""
    ensures Conforms(Fresh("a0"), BEGUN + SUBMISSION + [Enter(call)])
    ensures Stuck(Replay(Fresh("a0"), BEGUN + SUBMISSION + [Enter(call)]))
    ensures Replay(Fresh("a0"), BEGUN + SUBMISSION + [Enter(call)]).store.Op().active == ""
  {
    hide Conforms, Replay;
    var v := Begun();
    var l, x := Emit("a0", BEGUN, v, Enter(call));
    var w := Submitted();
    var m, y := Emit("a0", BEGUN + SUBMISSION, w, Enter(call));
  }
}
