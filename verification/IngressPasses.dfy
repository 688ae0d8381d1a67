/** What the scheduler does within one pass when candidates fail before DNS. */
module IngressPasses {
  import opened Wrappers
  import opened IngressProtocol
  import opened IngressSafety
  import opened IngressRecovery

  predicate IsBegin(e: Event) {
    e.Persist? && e.step.Begin?
  }

  /** No call starts strictly between two events. */
  predicate OneCall(log: seq<Event>, i: nat, k: nat)
    requires k <= |log|
  {
    forall m :: i < m < k ==> !log[m].Enter?
  }

  /** When a pass begins an operation, it has not touched DNS, and what it leaves is a verified or
      rolled-back operation: candidates it skipped before have left nothing. */
  lemma SkippedCandidatesLeaveDNS(dns: string, log: seq<Event>, a: nat, k: nat)
    requires Conforms(Fresh(dns), log) && a < k < |log| && log[a] == Enter(SchedulerPass) && OneCall(log, a, k)
    requires IsBegin(log[k]) && At(dns, log, k).call == SchedulerPass
    ensures Swaps(log[a..k], false) == 0 && Swaps(log[a..k], true) == 0
    ensures At(dns, log, k).store.Op().phase == Verified || At(dns, log, k).store.Op().phase == RolledBack
  {
    hide Replay, Conforms, Swaps;
    CountsSwaps(dns, log, a, k);
    StepAt(dns, log, k);
  }

  // ---------- between two candidates ----------

  /** An operation begun over `c` that has not touched DNS. */
  ghost predicate Pending(v: View, c: Operation) {
    var op := v.store.Op();
    && v.call == SchedulerPass && v.drives && v.forwards == 0 && v.backs == 0
    && (op.phase == Preparing || op.phase == SubmittingDNS || op.phase == Failed)
    && op.prior == (if CanBePrior(c) then c.id else 0) && op.id != c.id
    && c.id in v.store.history && v.store.history[c.id] == c
  }

  lemma PendingBegins(v: View, op: Operation)
    requires Coherent(v) && Begins(v, op) && v.call == SchedulerPass
    ensures Pending(Next(v, Persist(Begin, op)), v.store.Op())
  {
    assert v.store.current.Some?;
  }

  lemma PendingPersist(v: View, step: Step, op: Operation, c: Operation)
    requires Pending(v, c) && MayPersist(v, step, op)
    ensures Pending(Next(v, Persist(step, op)), c)
  {
  }

  /** It stays so until a swap is asked for, or exactly `c` is restored. */
  lemma PendingStep(v: View, e: Event, c: Operation)
    requires Pending(v, c) && Allowed(v, e) && !e.Enter? && e != Restore(c)
    ensures Pending(Next(v, e), c) || Next(v, e).forwards + Next(v, e).backs > 0
    ensures !IsBegin(e)
  {
    if e.Persist? {
      PendingPersist(v, e.step, e.op, c);
    }
  }

  lemma SwapsRemain(v: View, e: Event)
    requires v.forwards + v.backs > 0 && !e.Enter?
    ensures Next(v, e).forwards + Next(v, e).backs > 0
  {
  }

  ghost predicate RestoredWithin(log: seq<Event>, i: nat, k: nat, c: Operation)
    requires k <= |log|
  {
    exists m :: i < m < k && log[m] == Restore(c)
  }

  lemma {:induction false} PendingOrRestored(dns: string, log: seq<Event>, i: nat, k: nat)
    requires Conforms(Fresh(dns), log) && i < k <= |log| && IsBegin(log[i]) && OneCall(log, i, k)
    requires At(dns, log, i).call == SchedulerPass
    ensures var c := At(dns, log, i).store.Op();
            || Pending(At(dns, log, k), c) || At(dns, log, k).forwards + At(dns, log, k).backs > 0
            || RestoredWithin(log, i, k, c)
  {
    hide Replay, Conforms, Next, Allowed, Coherent, Pending;
    var c := At(dns, log, i).store.Op();
    StepAt(dns, log, k - 1);
    if k == i + 1 {
      AlwaysCoherent(dns, log, i);
      BeginIsPending(At(dns, log, i), log[i]);
    } else {
      PendingOrRestored(dns, log, i, k - 1);
      var v, e := At(dns, log, k - 1), log[k - 1];
      if e == Restore(c) {
        assert RestoredWithin(log, i, k, c);
      } else if v.forwards + v.backs > 0 {
        SwapsRemain(v, e);
      } else if Pending(v, c) {
        PendingStep(v, e, c);
      } else {
        var m :| i < m < k - 1 && log[m] == Restore(c);
        assert RestoredWithin(log, i, k, c);
      }
    }
  }

  lemma BeginIsPending(v: View, e: Event)
    requires Coherent(v) && Allowed(v, e) && IsBegin(e) && v.call == SchedulerPass
    ensures Pending(Next(v, e), v.store.Op())
  {
    PendingBegins(v, e.op);
  }

  lemma BeginNeedsNoPending(v: View, e: Event, c: Operation)
    requires Allowed(v, e) && IsBegin(e) && v.call == SchedulerPass
    ensures !Pending(v, c) && v.forwards + v.backs == 0
  {
  }

  /** Between two operations that one pass begins, the operation current at the first has been
      restored, exactly as it was. */
  lemma RestoredBetweenCandidates(dns: string, log: seq<Event>, i: nat, k: nat)
    requires Conforms(Fresh(dns), log) && i < k < |log| && IsBegin(log[i]) && IsBegin(log[k]) && OneCall(log, i, k)
    requires At(dns, log, i).call == SchedulerPass && At(dns, log, k).call == SchedulerPass
    ensures RestoredWithin(log, i, k, At(dns, log, i).store.Op())
  {
    hide Replay, Conforms, Allowed, Pending, RestoredWithin;
    PendingOrRestored(dns, log, i, k);
    StepAt(dns, log, k);
    BeginNeedsNoPending(At(dns, log, k), log[k], At(dns, log, i).store.Op());
  }

  // ---------- one judgement a pass ----------

  /** The node was judged in this call, and no reading has come since. */
  ghost predicate JudgedLast(log: seq<Event>, k: nat, node: string, usable: bool)
    requires k <= |log|
  {
    exists i :: 0 <= i < k && log[i] == Judged(node, usable) && Unread(log, i, k)
  }

  predicate Unread(log: seq<Event>, i: nat, k: nat)
    requires k <= |log|
  {
    forall m :: i < m < k ==> !log[m].Enter? && !log[m].SawNode?
  }

  ghost predicate ViewJudgedLast(log: seq<Event>, k: nat, v: View)
    requires k <= |log|
  {
    v.judged.Some? && v.predecessor.None? ==> JudgedLast(log, k, v.judged.value.0, v.judged.value.1)
  }

  lemma JudgedLastStep(log: seq<Event>, k: nat, v: View)
    requires k < |log| && ViewJudgedLast(log, k, v)
    ensures ViewJudgedLast(log, k + 1, Next(v, log[k]))
  {
    assert Unread(log, k, k + 1);
    if v.judged.Some? && v.predecessor.None? && !log[k].Enter? && !log[k].SawNode? {
      var i :| 0 <= i < k && log[i] == Judged(v.judged.value.0, v.judged.value.1) && Unread(log, i, k);
      assert Unread(log, i, k + 1);
    }
  }

  lemma {:induction false} WasJudgedLast(dns: string, log: seq<Event>, k: nat)
    requires Conforms(Fresh(dns), log) && k <= |log|
    ensures ViewJudgedLast(log, k, At(dns, log, k))
  {
    if k == 0 {
      assert log[..0] == [];
    } else {
      hide Replay, Conforms, Next, Allowed, ViewJudgedLast;
      WasJudgedLast(dns, log, k - 1);
      StepAt(dns, log, k - 1);
      JudgedLastStep(log, k - 1, At(dns, log, k - 1));
    }
  }

  function BeginsIn(log: seq<Event>): nat {
    if log == [] then 0 else BeginsIn(log[..|log|-1]) + if IsBegin(log[|log|-1]) then 1 else 0
  }

  lemma {:induction false} CountsBegins(dns: string, log: seq<Event>, a: nat, k: nat)
    requires Conforms(Fresh(dns), log) && a < k <= |log| && log[a].Enter? && OneCall(log, a, k)
    ensures At(dns, log, k).begins == BeginsIn(log[a..k])
  {
    hide Replay, Conforms, Allowed, Next;
    StepAt(dns, log, k - 1);
    assert log[a..k][..k - 1 - a] == log[a..k - 1];
    BeginsStep(At(dns, log, k - 1), log[k - 1]);
    if k == a + 1 {
      assert log[a..a] == [];
    } else {
      CountsBegins(dns, log, a, k - 1);
    }
  }

  lemma BeginsStep(v: View, e: Event)
    ensures Next(v, e).begins == if e.Enter? then 0 else v.begins + if IsBegin(e) then 1 else 0
  {
  }

  /** The first operation a pass begins follows its judgement of the active node with no other
      reading of it in between. */
  lemma FirstBeginFollowsJudgement(dns: string, log: seq<Event>, a: nat, k: nat)
    requires Conforms(Fresh(dns), log) && a < k < |log| && log[a].Enter? && OneCall(log, a, k)
    requires IsBegin(log[k]) && At(dns, log, k).call == SchedulerPass && BeginsIn(log[a..k]) == 0
    ensures var op := log[k].op; JudgedLast(log, k, op.active, op.trigger == AutomaticThreshold)
  {
    hide Replay, Conforms, JudgedLast;
    CountsBegins(dns, log, a, k);
    WasJudgedLast(dns, log, k);
    StepAt(dns, log, k);
  }

  /** After the judgement a node is read only on behalf of a candidate that the same pass began
      for the health of the active node. */
  lemma LaterReadingsServeCandidates(dns: string, log: seq<Event>, a: nat, k: nat)
    requires Conforms(Fresh(dns), log) && a < k < |log| && log[a].Enter? && OneCall(log, a, k)
    requires log[k].SawNode? && At(dns, log, k).judged.Some?
    ensures BeginsIn(log[a..k]) > 0 && At(dns, log, k).store.Op().trigger == AutomaticHealth
  {
    hide Replay, Conforms;
    CountsBegins(dns, log, a, k);
    StepAt(dns, log, k);
  }

  // ---------- a pass that goes on ----------

  const LEAVING := ZERO.(id := 2, prior := 1, phase := Preparing, trigger := AutomaticHealth, mode := Preferred,
                         requested := "n2", active := "n1", record := "r")
  const UNKNOWN := LEAVING.(phase := Failed, error := UnknownNode)
  const ANOTHER := LEAVING.(id := 3, requested := "n3")

  const CHANGED: seq<Event> := [
    Swap(Forward, "a0", "a1", true, true), Persist(AwaitRecursive, WAITING), SawRecursive("a1")]
  const ANSWERED: seq<Event> := [Persist(AwaitRequest, VERIFYING), SawPublic("n1")]
  const SETTLED: seq<Event> := [Persist(Verify, SERVING)]
  const FIRST_SWITCH := BEGUN + SUBMISSION + CHANGED + ANSWERED + SETTLED

  const JUDGEMENT: seq<Event> := [Enter(SchedulerPass), Judged("n1", false)]
  const SKIPPED: seq<Event> := [Persist(Begin, LEAVING), Persist(FailBeforeDNS, UNKNOWN)]
  const RECORD_REREAD: seq<Event> := [NoIPv6, SawRecord("a1"), SawRecursive("a1")]
  const NODE_REREAD: seq<Event> := [SawNode("n1", true), SawPublic("n1")]
  const WENT_ON: seq<Event> := [Restore(SERVING), Persist(Begin, ANOTHER)]
  const PASS := JUDGEMENT + SKIPPED + RECORD_REREAD + NODE_REREAD + WENT_ON

  lemma Swapped(l0: seq<Event>, v0: View) returns (log: seq<Event>, v: View)
    requires Conforms(Fresh("a0"), l0) && v0 == Replay(Fresh("a0"), l0)
    requires v0.store == Store(Some(SUBMITTED), map[1 := SUBMITTED], "a0")
    requires v0.call == AdminSwitch("n1", Preferred) && v0.drives && v0.forwards == 0 && v0.backs == 0
    ensures Conforms(Fresh("a0"), log) && v == Replay(Fresh("a0"), log) && log == l0 + CHANGED
    ensures v.store == Store(Some(WAITING), map[1 := WAITING], "a1") && v.call == AdminSwitch("n1", Preferred)
    ensures v.drives && v.forwards == 1 && v.backs == 0 && v.known == v.recursive == Some("a1")
  {
    hide Conforms, Replay;
    Reset(map[], 1, SUBMITTED, WAITING);
    log, v := EmitThree("a0", l0, v0, CHANGED[0], CHANGED[1], CHANGED[2]);
  }

  lemma Answered(l0: seq<Event>, v0: View) returns (log: seq<Event>, v: View)
    requires Conforms(Fresh("a0"), l0) && v0 == Replay(Fresh("a0"), l0)
    requires v0.store == Store(Some(WAITING), map[1 := WAITING], "a1") && v0.call == AdminSwitch("n1", Preferred)
    requires v0.drives && v0.forwards == 1 && v0.backs == 0 && v0.known == v0.recursive == Some("a1")
    ensures Conforms(Fresh("a0"), log) && v == Replay(Fresh("a0"), log) && log == l0 + ANSWERED
    ensures v.store == Store(Some(VERIFYING), map[1 := VERIFYING], "a1") && v.call == AdminSwitch("n1", Preferred)
    ensures v.drives && v.forwards == 1 && v.backs == 0
    ensures v.known == v.recursive == Some("a1") && v.public == Some("n1")
  {
    hide Conforms, Replay;
    var l1, v1 := Asked(l0, v0);
    log, v := Emit("a0", l1, v1, ANSWERED[1]);
    Two(l0, ANSWERED[0], ANSWERED[1]);
  }

  lemma Asked(l0: seq<Event>, v0: View) returns (log: seq<Event>, v: View)
    requires Conforms(Fresh("a0"), l0) && v0 == Replay(Fresh("a0"), l0)
    requires v0.store == Store(Some(WAITING), map[1 := WAITING], "a1") && v0.call == AdminSwitch("n1", Preferred)
    requires v0.drives && v0.forwards == 1 && v0.backs == 0 && v0.known == v0.recursive == Some("a1")
    ensures Conforms(Fresh("a0"), log) && v == Replay(Fresh("a0"), log) && log == l0 + [ANSWERED[0]]
    ensures v == v0.(store := Store(Some(VERIFYING), map[1 := VERIFYING], "a1"))
  {
    hide Conforms, Replay;
    Reset(map[], 1, WAITING, VERIFYING);
    log, v := Emit("a0", l0, v0, ANSWERED[0]);
  }

  lemma Settled(l0: seq<Event>, v0: View) returns (log: seq<Event>, v: View)
    requires Conforms(Fresh("a0"), l0) && v0 == Replay(Fresh("a0"), l0)
    requires v0.store == Store(Some(VERIFYING), map[1 := VERIFYING], "a1") && v0.call == AdminSwitch("n1", Preferred)
    requires v0.drives && v0.forwards == 1 && v0.backs == 0
    requires v0.known == v0.recursive == Some("a1") && v0.public == Some("n1")
    ensures Conforms(Fresh("a0"), log) && v == Replay(Fresh("a0"), log) && log == l0 + SETTLED
    ensures v.store == Store(Some(SERVING), map[1 := SERVING], "a1")
  {
    hide Conforms, Replay;
    Reset(map[], 1, VERIFYING, SERVING);
    log, v := Emit("a0", l0, v0, SETTLED[0]);
  }

  lemma CandidateFails(l0: seq<Event>, v0: View) returns (log: seq<Event>, v: View)
    requires Conforms(Fresh("a0"), l0) && v0 == Replay(Fresh("a0"), l0)
    requires v0.store == Store(Some(SERVING), map[1 := SERVING], "a1")
    ensures Conforms(Fresh("a0"), log) && v == Replay(Fresh("a0"), log) && log == l0 + JUDGEMENT + SKIPPED
    ensures v.store == Store(Some(UNKNOWN), map[1 := SERVING, 2 := UNKNOWN], "a1") && v.call == SchedulerPass
    ensures v.forwards == 0 && v.backs == 0 && v.begins == 1 && v.judged == Some(("n1", false))
  {
    hide Conforms, Replay;
    var l1, v1 := EmitTwo("a0", l0, v0, JUDGEMENT[0], JUDGEMENT[1]);
    assert v1 == Next(Next(v0, JUDGEMENT[0]), JUDGEMENT[1]);
    assert v1.store == v0.store && v1.call == SchedulerPass && v1.drives == false && v1.judged == Some(("n1", false))
           && v1.predecessor == None && v1.forwards == 0 && v1.backs == 0 && v1.begins == 0;
    log, v := CandidateSkipped(l1, v1);
  }

  lemma CandidateSkipped(l0: seq<Event>, v0: View) returns (log: seq<Event>, v: View)
    requires Conforms(Fresh("a0"), l0) && v0 == Replay(Fresh("a0"), l0) && v0.call == SchedulerPass
    requires v0.store == Store(Some(SERVING), map[1 := SERVING], "a1") && v0.judged == Some(("n1", false))
    requires v0.predecessor == None && v0.forwards == 0 && v0.backs == 0 && v0.begins == 0
    ensures Conforms(Fresh("a0"), log) && v == Replay(Fresh("a0"), log) && log == l0 + SKIPPED
    ensures v.store == Store(Some(UNKNOWN), map[1 := SERVING, 2 := UNKNOWN], "a1") && v.call == SchedulerPass
    ensures v.forwards == 0 && v.backs == 0 && v.begins == 1 && v.judged == Some(("n1", false))
  {
    hide Conforms, Replay;
    Reset(map[1 := SERVING], 2, LEAVING, UNKNOWN);
    log, v := EmitTwo("a0", l0, v0, SKIPPED[0], SKIPPED[1]);
  }

  lemma NodeReread(l0: seq<Event>, v0: View) returns (log: seq<Event>, v: View)
    requires Conforms(Fresh("a0"), l0) && v0 == Replay(Fresh("a0"), l0)
    requires v0.store == Store(Some(UNKNOWN), map[1 := SERVING, 2 := UNKNOWN], "a1") && v0.call == SchedulerPass
    requires v0.forwards == 0 && v0.backs == 0 && v0.begins == 1 && v0.judged == Some(("n1", false))
    ensures Conforms(Fresh("a0"), log) && v == Replay(Fresh("a0"), log) && log == l0 + RECORD_REREAD + NODE_REREAD
    ensures v.store == v0.store && v.call == SchedulerPass && v.ipv4Only
    ensures v.forwards == 0 && v.backs == 0 && v.begins == 1 && v.judged == Some(("n1", false))
    ensures v.known == v.recursive == Some("a1") && v.public == Some("n1")
  {
    hide Conforms, Replay;
    var l1, v1 := RecordReread(l0, v0);
    log, v := EmitTwo("a0", l1, v1, NODE_REREAD[0], NODE_REREAD[1]);
  }

  lemma RecordReread(l0: seq<Event>, v0: View) returns (log: seq<Event>, v: View)
    requires Conforms(Fresh("a0"), l0) && v0 == Replay(Fresh("a0"), l0)
    requires v0.store == Store(Some(UNKNOWN), map[1 := SERVING, 2 := UNKNOWN], "a1") && v0.call == SchedulerPass
    requires v0.forwards == 0 && v0.backs == 0 && v0.begins == 1 && v0.judged == Some(("n1", false))
    ensures Conforms(Fresh("a0"), log) && v == Replay(Fresh("a0"), log) && log == l0 + RECORD_REREAD
    ensures v.store == v0.store && v.call == SchedulerPass && v.ipv4Only
    ensures v.forwards == 0 && v.backs == 0 && v.begins == 1 && v.judged == Some(("n1", false))
    ensures v.known == v.recursive == Some("a1")
  {
    hide Conforms, Replay;
    log, v := EmitThree("a0", l0, v0, RECORD_REREAD[0], RECORD_REREAD[1], RECORD_REREAD[2]);
  }

  lemma SecondCandidate(l0: seq<Event>, v0: View) returns (log: seq<Event>, v: View)
    requires Conforms(Fresh("a0"), l0) && v0 == Replay(Fresh("a0"), l0) && v0.ipv4Only
    requires v0.store == Store(Some(UNKNOWN), map[1 := SERVING, 2 := UNKNOWN], "a1") && v0.call == SchedulerPass
    requires v0.forwards == 0 && v0.backs == 0 && v0.begins == 1 && v0.judged == Some(("n1", false))
    requires v0.known == v0.recursive == Some("a1") && v0.public == Some("n1")
    ensures Conforms(Fresh("a0"), log) && log == l0 + WENT_ON
  {
    hide Conforms, Replay;
    log, v := EmitTwo("a0", l0, v0, WENT_ON[0], WENT_ON[1]);
  }

  /** A pass judges the active node once.  Here it goes on to a second candidate although, while
      it skipped the first, it has read the node as usable and had it answer in public. */
  lemma PassGoesOnAfterUsableReading()
    ensures Conforms(Fresh("a0"), FIRST_SWITCH + PASS)
    ensures PASS[1] == Judged("n1", false) && PASS[7] == SawNode("n1", true) && PASS[10] == Persist(Begin, ANOTHER)
    ensures ANOTHER.active == "n1" && ANOTHER.trigger == AutomaticHealth
  {
    hide Conforms, Replay;
    var v0 := Submitted();
    var l1, v1 := Swapped(BEGUN + SUBMISSION, v0);
    var la, va := Answered(l1, v1);
    var l2, v2 := Settled(la, va);
    var l3, v3 := CandidateFails(l2, v2);
    var l4, v4 := NodeReread(l3, v3);
    var l5, v5 := SecondCandidate(l4, v4);
    Joined(FIRST_SWITCH, JUDGEMENT, SKIPPED, RECORD_REREAD, NODE_REREAD, WENT_ON);
  }

  lemma Joined<T>(s: seq<T>, a: seq<T>, b: seq<T>, c: seq<T>, d: seq<T>, e: seq<T>)
    ensures s + a + b + c + d + e == s + (a + b + c + d + e)
  {
  }
}
