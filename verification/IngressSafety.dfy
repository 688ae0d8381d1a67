/** What holds in every run of the ingress switch: any interleaving of administrator
    switches, confirmations, scheduler passes, crashes and (where said) outside writers. */
module IngressSafety {
  import opened Wrappers
  import opened IngressProtocol

  /** The view after the first k events of a run from a fresh installation. */
  ghost function At(dns: string, log: seq<Event>, k: nat): View
    requires k <= |log|
  {
    Replay(Fresh(dns), log[..k])
  }

  lemma {:induction false} StepAt(dns: string, log: seq<Event>, k: nat)
    requires Conforms(Fresh(dns), log) && k < |log|
    ensures Conforms(Fresh(dns), log[..k]) && Conforms(Fresh(dns), log[..k+1])
    ensures Allowed(At(dns, log, k), log[k]) && At(dns, log, k + 1) == Next(At(dns, log, k), log[k])
  {
    var most := log[..|log|-1];
    if k == |log| - 1 {
      assert log[..k] == most && log[..k+1] == log;
    } else {
      StepAt(dns, most, k);
      assert most[..k] == log[..k] && most[..k+1] == log[..k+1];
    }
  }

  /** A run cut by a crash after any event is still a run. */
  lemma PrefixConforms(dns: string, log: seq<Event>, k: nat)
    requires Conforms(Fresh(dns), log) && k <= |log|
    ensures Conforms(Fresh(dns), log[..k])
  {
    if k < |log| { StepAt(dns, log, k); } else { assert log[..k] == log; }
  }

  lemma {:induction false} AlwaysCoherent(dns: string, log: seq<Event>, k: nat)
    requires Conforms(Fresh(dns), log) && k <= |log|
    ensures Coherent(At(dns, log, k))
  {
    if k == 0 {
      assert log[..0] == [];
    } else {
      hide Replay, Conforms, Next, Allowed, Coherent;
      AlwaysCoherent(dns, log, k - 1);
      StepAt(dns, log, k - 1);
      StepCoherent(At(dns, log, k - 1), log[k-1]);
    }
  }

  // ---------- write-ahead safety ----------

  predicate Undisturbed(log: seq<Event>) {
    forall e <- log :: !e.OutsideWrite?
  }

  /** The live record is one the persisted operation names; before submission and after a
      failure it is what it was when the operation began; a finished operation names it exactly. */
  predicate LiveAddressNamed(v: View) {
    var op := v.store.Op();
    match op.phase
    case Unset => true
    case Preparing => v.store.dns == v.began
    case Failed => v.store.dns == v.began
    case Verified => v.store.dns == op.desired
    case RolledBack => v.store.dns == op.previous
    case _ => Named(op, v.store.dns)
  }

  predicate WriteAheadInvariant(v: View) {
    && LiveAddressNamed(v)
    && (v.known.Some? ==> v.known.value == v.store.dns)
    && (v.store.Op().phase == SubmittingDNS ==> v.store.Op().previous == v.began)
  }

  predicate BackwardStep(step: Step) {
    || step.StartRollback? || step.Defer? || step.EndRollback?
    || step.PlanResume? || step.NoteResume? || step.FindNoCandidate?
    || step.ConfirmRollback? || step.Upgrade?
  }

  lemma WriteAheadForward(v: View, step: Step, op: Operation)
    requires Coherent(v) && WriteAheadInvariant(v) && MayPersist(v, step, op) && !BackwardStep(step)
    ensures LiveAddressNamed(Next(v, Persist(step, op)))
  {
    if !step.Begin? {
      assert v.store.current.Some?;
      assert WellFormed(v.store.Op());
    }
  }

  lemma WriteAheadBackward(v: View, step: Step, op: Operation)
    requires Coherent(v) && WriteAheadInvariant(v) && MayPersist(v, step, op) && BackwardStep(step)
    ensures LiveAddressNamed(Next(v, Persist(step, op)))
  {
    assert v.store.current.Some?;
    assert WellFormed(v.store.Op());
  }

  lemma WriteAheadPersist(v: View, step: Step, op: Operation)
    requires Coherent(v) && WriteAheadInvariant(v) && MayPersist(v, step, op)
    ensures WriteAheadInvariant(Next(v, Persist(step, op)))
  {
    if BackwardStep(step) { WriteAheadBackward(v, step, op); } else { WriteAheadForward(v, step, op); }
    hide LiveAddressNamed, Coherent, BackwardStep;
  }

  lemma WriteAheadSwap(v: View, kind: SwapKind, from: string, to: string, took: bool, acked: bool)
    requires Coherent(v) && WriteAheadInvariant(v) && Allowed(v, Swap(kind, from, to, took, acked))
    ensures WriteAheadInvariant(Next(v, Swap(kind, from, to, took, acked)))
  {
    assert v.store.current.Some?;
    assert WellFormed(v.store.Op());
  }

  lemma WriteAheadStep(v: View, e: Event)
    requires Coherent(v) && WriteAheadInvariant(v) && Allowed(v, e) && !e.OutsideWrite?
    ensures WriteAheadInvariant(Next(v, e))
  {
    if e.Persist? {
      WriteAheadPersist(v, e.step, e.op);
    } else if e.Swap? {
      WriteAheadSwap(v, e.kind, e.from, e.to, e.took, e.acked);
    }
  }

  lemma {:induction false} WriteAheadHolds(dns: string, log: seq<Event>, k: nat)
    requires Conforms(Fresh(dns), log) && Undisturbed(log) && k <= |log|
    ensures WriteAheadInvariant(At(dns, log, k))
  {
    if k == 0 {
      assert log[..0] == [];
    } else {
      hide Replay, Conforms, Next, Allowed, Coherent, WriteAheadInvariant;
      WriteAheadHolds(dns, log, k - 1);
      AlwaysCoherent(dns, log, k - 1);
      StepAt(dns, log, k - 1);
      assert log[k-1] in log;
      WriteAheadStep(At(dns, log, k - 1), log[k-1]);
    }
  }

  /** In every state a crash can leave, the live record is named by the persisted operation. */
  lemma WriteAhead(dns: string, log: seq<Event>)
    requires Conforms(Fresh(dns), log) && Undisturbed(log)
    ensures LiveAddressNamed(Replay(Fresh(dns), log))
  {
    WriteAheadHolds(dns, log, |log|);
    assert log[..|log|] == log;
  }

  lemma NothingElsePersists(v: View, e: Event)
    requires Allowed(v, e) && InFlight(v.store.Op().phase)
    ensures !e.Restore? && (e.Persist? ==> e.op.id == v.store.Op().id)
    ensures Next(v, e).store.Op().id == v.store.Op().id
  {
  }

  /** While an operation is in flight, nothing but that operation is ever persisted. */
  lemma OneOperationAtATime(dns: string, log: seq<Event>, k: nat)
    requires Conforms(Fresh(dns), log) && k < |log| && InFlight(At(dns, log, k).store.Op().phase)
    ensures !log[k].Restore? && (log[k].Persist? ==> log[k].op.id == At(dns, log, k).store.Op().id)
    ensures At(dns, log, k + 1).store.Op().id == At(dns, log, k).store.Op().id
  {
    hide Replay, Conforms;
    StepAt(dns, log, k);
    NothingElsePersists(At(dns, log, k), log[k]);
  }

  // ---------- the active node ----------

  /** The event was seen by the call that is still running, with no swap since. */
  predicate SeenBy(log: seq<Event>, k: nat, e: Event)
    requires k <= |log|
  {
    exists i :: 0 <= i < k && log[i] == e && StillCurrent(log, i, k)
  }

  predicate StillCurrent(log: seq<Event>, i: nat, k: nat)
    requires k <= |log|
  {
    forall m :: i < m < k ==> !log[m].Enter? && !log[m].Swap?
  }

  lemma SeenStays(log: seq<Event>, k: nat, e: Event)
    requires k < |log| && SeenBy(log, k, e) && !log[k].Enter? && !log[k].Swap?
    ensures SeenBy(log, k + 1, e)
  {
    var i :| 0 <= i < k && log[i] == e && StillCurrent(log, i, k);
    assert StillCurrent(log, i, k + 1);
  }

  lemma SeenNow(log: seq<Event>, k: nat)
    requires k < |log|
    ensures SeenBy(log, k + 1, log[k])
  {
    assert StillCurrent(log, k, k + 1);
  }

  /** Everything the running call holds as seen was seen. */
  ghost predicate ViewWasSeen(log: seq<Event>, k: nat, v: View)
    requires k <= |log|
  {
    && (v.recursive.Some? ==> SeenBy(log, k, SawRecursive(v.recursive.value)))
    && (v.public.Some? ==> SeenBy(log, k, SawPublic(v.public.value)))
  }

  lemma ViewWasSeenStep(log: seq<Event>, k: nat, v: View)
    requires k < |log| && ViewWasSeen(log, k, v)
    ensures ViewWasSeen(log, k + 1, Next(v, log[k]))
  {
    hide SeenBy;
    SeenNow(log, k);
    if !log[k].Enter? && !log[k].Swap? {
      if v.recursive.Some? { SeenStays(log, k, SawRecursive(v.recursive.value)); }
      if v.public.Some? { SeenStays(log, k, SawPublic(v.public.value)); }
    }
  }

  lemma {:induction false} WasSeen(dns: string, log: seq<Event>, k: nat)
    requires Conforms(Fresh(dns), log) && k <= |log|
    ensures ViewWasSeen(log, k, At(dns, log, k))
  {
    if k == 0 {
      assert log[..0] == [];
    } else {
      hide Replay, Conforms, Next, Allowed, ViewWasSeen;
      WasSeen(dns, log, k - 1);
      StepAt(dns, log, k - 1);
      ViewWasSeenStep(log, k - 1, At(dns, log, k - 1));
    }
  }

  lemma OnlyVerifyChangesActive(v: View, e: Event)
    requires Allowed(v, e) && Next(v, e).store.Op().active != v.store.Op().active
    ensures e.Persist? && e.op.phase == Verified && e.op.requestVerified && e.op.id == v.store.Op().id
    ensures v.known == v.recursive == Some(e.op.desired) && v.public == Some(e.op.active)
  {
  }

  /** The persisted active node changes only in a write that enters `verified`, after the same
      call saw recursive DNS agree on the desired address and that very node answer in public. */
  lemma ActiveNodeChange(dns: string, log: seq<Event>, k: nat)
    requires Conforms(Fresh(dns), log) && k < |log|
    requires At(dns, log, k + 1).store.Op().active != At(dns, log, k).store.Op().active
    ensures log[k].Persist? && log[k].op.phase == Verified && log[k].op.requestVerified
    ensures log[k].op.id == At(dns, log, k).store.Op().id
    ensures At(dns, log, k).known == Some(log[k].op.desired)
    ensures SeenBy(log, k, SawRecursive(log[k].op.desired)) && SeenBy(log, k, SawPublic(log[k].op.active))
  {
    hide Replay, Conforms, SeenBy;
    StepAt(dns, log, k);
    OnlyVerifyChangesActive(At(dns, log, k), log[k]);
    WasSeen(dns, log, k);
  }

  // ---------- when the scheduler switches ----------

  predicate SameCall(log: seq<Event>, i: nat, k: nat)
    requires k <= |log|
  {
    forall m :: i < m < k ==> !log[m].Enter?
  }

  /** The running call has judged the active node, one way or the other. */
  predicate JudgedBy(log: seq<Event>, k: nat, node: string, usable: bool)
    requires k <= |log|
  {
    exists i :: 0 <= i < k && log[i] == Judged(node, usable) && SameCall(log, i, k)
  }

  ghost predicate ViewWasJudged(log: seq<Event>, k: nat, v: View)
    requires k <= |log|
  {
    v.judged.Some? ==> JudgedBy(log, k, v.judged.value.0, v.judged.value.1)
  }

  lemma JudgedStep(log: seq<Event>, k: nat, v: View)
    requires k < |log| && ViewWasJudged(log, k, v)
    ensures ViewWasJudged(log, k + 1, Next(v, log[k]))
  {
    assert SameCall(log, k, k + 1);
    if v.judged.Some? && !log[k].Enter? {
      var i :| 0 <= i < k && log[i] == Judged(v.judged.value.0, v.judged.value.1) && SameCall(log, i, k);
      assert SameCall(log, i, k + 1);
    }
  }

  lemma {:induction false} WasJudged(dns: string, log: seq<Event>, k: nat)
    requires Conforms(Fresh(dns), log) && k <= |log|
    ensures ViewWasJudged(log, k, At(dns, log, k))
  {
    if k == 0 {
      assert log[..0] == [];
    } else {
      hide Replay, Conforms, Next, Allowed, ViewWasJudged;
      WasJudged(dns, log, k - 1);
      StepAt(dns, log, k - 1);
      JudgedStep(log, k - 1, At(dns, log, k - 1));
    }
  }

  /** A pass begins a switch only outside fixed mode, away from the active node, after it has
      judged that node unusable, or usable but with the cooldown of its verification over. */
  lemma AutomaticSwitchIsDue(dns: string, log: seq<Event>, k: nat)
    requires Conforms(Fresh(dns), log) && k < |log| && At(dns, log, k).call == SchedulerPass
    requires log[k].Persist? && log[k].step.Begin?
    ensures var cur, op := At(dns, log, k).store.Op(), log[k].op;
            && !InFlight(cur.phase) && cur.mode != Fixed && op.requested != cur.active
            && (op.trigger == AutomaticHealth || op.trigger == AutomaticThreshold)
            && JudgedBy(log, k, cur.active, op.trigger == AutomaticThreshold)
            && (op.trigger == AutomaticThreshold && cur.phase == Verified ==> op.id - cur.completedAt * NANOS >= HOUR)
  {
    hide Replay, Conforms, JudgedBy;
    StepAt(dns, log, k);
    WasJudged(dns, log, k);
  }

  // ---------- the fixed pin ----------

  predicate ManualIsPreferred(op: Operation) {
    op.phase == Verified && op.trigger == AdminManual ==> op.mode == Preferred
  }

  /** Reachable-state facts behind the pin. */
  ghost predicate TriggersAgree(v: View) {
    && (forall id <- v.store.history :: ManualIsPreferred(v.store.history[id]))
    && (v.call.AdminSwitch? && v.drives ==> AdminTrigger(v.call.mode, v.store.Op().trigger))
    && (v.call == SchedulerPass && v.drives ==> v.store.Op().mode != Fixed)
  }

  lemma TriggersAgreePersist(v: View, step: Step, op: Operation)
    requires Coherent(v) && TriggersAgree(v) && MayPersist(v, step, op)
    ensures ManualIsPreferred(op)
    ensures v.call.AdminSwitch? ==> AdminTrigger(v.call.mode, op.trigger)
    ensures v.call == SchedulerPass ==> op.mode != Fixed
  {
  }

  lemma TriggersAgreeStep(v: View, e: Event)
    requires Coherent(v) && TriggersAgree(v) && Allowed(v, e)
    ensures TriggersAgree(Next(v, e))
  {
    if e.Persist? {
      TriggersAgreePersist(v, e.step, e.op);
      hide MayPersist, Coherent;
    }
  }

  /** A verified manual switch is never fixed, in any reachable state. */
  lemma {:induction false} ManualIsNeverFixed(dns: string, log: seq<Event>, k: nat)
    requires Conforms(Fresh(dns), log) && k <= |log|
    ensures TriggersAgree(At(dns, log, k))
  {
    if k == 0 {
      assert log[..0] == [];
    } else {
      hide Replay, Conforms, Next, Allowed, Coherent, TriggersAgree;
      ManualIsNeverFixed(dns, log, k - 1);
      AlwaysCoherent(dns, log, k - 1);
      StepAt(dns, log, k - 1);
      TriggersAgreeStep(At(dns, log, k - 1), log[k-1]);
    }
  }

  /** An administrator's verified switch in preferred mode. */
  predicate Unpins(e: Event) {
    e.Persist? && e.op.phase == Verified && e.op.mode == Preferred && e.op.trigger == AdminManual
  }

  lemma PinPersist(v: View, step: Step, op: Operation)
    requires Coherent(v) && TriggersAgree(v) && MayPersist(v, step, op) && v.store.Op().mode == Fixed
    requires !Unpins(Persist(step, op))
    ensures op.mode == Fixed && (v.call == SchedulerPass ==> op.active == v.store.Op().active)
  {
    assert v.store.current.Some?;
    assert !step.Upgrade?;
  }

  lemma PinStep(v: View, e: Event)
    requires Coherent(v) && TriggersAgree(v) && Allowed(v, e) && v.store.Op().mode == Fixed && !Unpins(e)
    ensures Next(v, e).store.Op().mode == Fixed
    ensures v.call == SchedulerPass ==> !e.Swap? && Next(v, e).store.Op().active == v.store.Op().active
  {
    assert v.store.current.Some?;
    if e.Persist? {
      PinPersist(v, e.step, e.op);
      hide MayPersist;
    }
  }

  lemma {:induction false} PinnedThrough(dns: string, log: seq<Event>, i: nat, j: nat)
    requires Conforms(Fresh(dns), log) && i <= j <= |log|
    requires At(dns, log, i).store.Op().phase == Verified && At(dns, log, i).store.Op().mode == Fixed
    requires forall m :: i <= m < j ==> !Unpins(log[m])
    ensures At(dns, log, j).store.Op().mode == Fixed
  {
    if i < j {
      hide Replay, Conforms, Next, Allowed, Coherent, TriggersAgree;
      PinnedThrough(dns, log, i, j - 1);
      StepAt(dns, log, j - 1);
      AlwaysCoherent(dns, log, j - 1);
      ManualIsNeverFixed(dns, log, j - 1);
      PinStep(At(dns, log, j - 1), log[j-1]);
    }
  }

  /** Once a fixed switch is verified, no scheduler pass writes DNS or changes the active node
      until an administrator's switch is verified in preferred mode; node health, quota,
      restarts and failed or rolled-back later switches make no difference. */
  lemma FixedPin(dns: string, log: seq<Event>, i: nat, j: nat)
    requires Conforms(Fresh(dns), log) && i <= j < |log|
    requires At(dns, log, i).store.Op().phase == Verified && At(dns, log, i).store.Op().mode == Fixed
    requires forall m :: i <= m <= j ==> !Unpins(log[m])
    requires At(dns, log, j).call == SchedulerPass
    ensures !log[j].Swap?
    ensures At(dns, log, j + 1).store.Op().active == At(dns, log, j).store.Op().active
  {
    hide Replay, Conforms, Next, Allowed, Coherent, TriggersAgree;
    PinnedThrough(dns, log, i, j);
    StepAt(dns, log, j);
    AlwaysCoherent(dns, log, j);
    ManualIsNeverFixed(dns, log, j);
    PinStep(At(dns, log, j), log[j]);
  }

  // ---------- what swaps may touch ----------

  lemma SwapStaysNamed(v: View, e: Event)
    requires Coherent(v) && Allowed(v, e) && e.Swap?
    ensures Named(v.store.Op(), e.from) && Named(v.store.Op(), e.to)
    ensures e.took ==> v.store.dns == e.from && Next(v, e).store.dns == e.to
  {
    assert v.store.current.Some?;
    assert WellFormed(v.store.Op());
  }

  /** Even with other writers of the record about, a swap that takes effect replaces an address
      the persisted operation names by another that it names. */
  lemma NeverOverwritesForeign(dns: string, log: seq<Event>, k: nat)
    requires Conforms(Fresh(dns), log) && k < |log| && log[k].Swap? && log[k].took
    ensures Named(At(dns, log, k).store.Op(), At(dns, log, k).store.dns)
    ensures Named(At(dns, log, k).store.Op(), At(dns, log, k + 1).store.dns)
  {
    hide Replay, Conforms, Allowed, Coherent;
    StepAt(dns, log, k);
    AlwaysCoherent(dns, log, k);
    SwapStaysNamed(At(dns, log, k), log[k]);
  }

  /** This call's latest reading of a predecessor. */
  predicate LatestReading(log: seq<Event>, k: nat, node: string, usable: bool)
    requires k <= |log|
  {
    exists i :: 0 <= i < k && log[i] == SawNode(node, usable) && NoLaterReading(log, i, k)
  }

  predicate NoLaterReading(log: seq<Event>, i: nat, k: nat)
    requires k <= |log|
  {
    forall m :: i < m < k ==> !log[m].Enter? && !log[m].SawNode?
  }

  lemma LatestReadingStep(log: seq<Event>, k: nat, v: View)
    requires k < |log|
    requires v.predecessor.Some? ==> LatestReading(log, k, v.predecessor.value.0, v.predecessor.value.1)
    ensures var w := Next(v, log[k]);
            w.predecessor.Some? ==> LatestReading(log, k + 1, w.predecessor.value.0, w.predecessor.value.1)
  {
    assert NoLaterReading(log, k, k + 1);
    if v.predecessor.Some? && !log[k].Enter? && !log[k].SawNode? {
      var i :|
        0 <= i < k && log[i] == SawNode(v.predecessor.value.0, v.predecessor.value.1) && NoLaterReading(log, i, k);
      assert NoLaterReading(log, i, k + 1);
    }
  }

  lemma {:induction false} PredecessorWasRead(dns: string, log: seq<Event>, k: nat)
    requires Conforms(Fresh(dns), log) && k <= |log| && At(dns, log, k).predecessor.Some?
    ensures LatestReading(log, k, At(dns, log, k).predecessor.value.0, At(dns, log, k).predecessor.value.1)
  {
    if k > 0 {
      hide Replay, Conforms, Next, Allowed, LatestReading;
      StepAt(dns, log, k - 1);
      if At(dns, log, k - 1).predecessor.Some? { PredecessorWasRead(dns, log, k - 1); }
      LatestReadingStep(log, k - 1, At(dns, log, k - 1));
    }
  }

  /** An automatic rollback goes back only to a predecessor this call has just found usable. */
  lemma AutomaticRollbackTarget(dns: string, log: seq<Event>, k: nat)
    requires Conforms(Fresh(dns), log) && k < |log| && log[k].Swap? && log[k].kind == Back
    requires At(dns, log, k).store.Op().trigger == AutomaticHealth
    ensures log[k].to == At(dns, log, k).store.Op().previous
    ensures LatestReading(log, k, At(dns, log, k).store.Op().active, true)
  {
    hide Replay, Conforms, LatestReading;
    StepAt(dns, log, k);
    PredecessorWasRead(dns, log, k);
  }

  function Swaps(log: seq<Event>, back: bool): nat {
    if log == [] then 0
    else Swaps(log[..|log|-1], back) + if log[|log|-1].Swap? && (log[|log|-1].kind == Back) == back then 1 else 0
  }

  lemma SwapsExtend(log: seq<Event>, a: nat, k: nat, back: bool)
    requires a <= k < |log|
    ensures Swaps(log[a..k+1], back)
            == Swaps(log[a..k], back) + if log[k].Swap? && (log[k].kind == Back) == back then 1 else 0
  {
    assert log[a..k+1][..k-a] == log[a..k];
  }

  lemma SwapLimit(v: View, e: Event)
    requires Allowed(v, e) && !e.Enter?
    ensures Next(v, e).forwards == v.forwards + if e.Swap? && e.kind != Back then 1 else 0
    ensures Next(v, e).backs == v.backs + if e.Swap? && e.kind == Back then 1 else 0
    ensures v.forwards <= 1 && v.backs <= 1 ==> Next(v, e).forwards <= 1 && Next(v, e).backs <= 1
  {
  }

  lemma {:induction false} CountsSwaps(dns: string, log: seq<Event>, a: nat, k: nat)
    requires Conforms(Fresh(dns), log) && a < k <= |log| && log[a].Enter?
    requires forall m :: a < m < k ==> !log[m].Enter?
    ensures At(dns, log, k).forwards == Swaps(log[a..k], false) <= 1
    ensures At(dns, log, k).backs == Swaps(log[a..k], true) <= 1
  {
    StepAt(dns, log, k - 1);
    SwapsExtend(log, a, k - 1, true);
    SwapsExtend(log, a, k - 1, false);
    if k == a + 1 {
      assert log[a..a] == [];
    } else {
      hide Replay, Conforms, Next, Allowed, Swaps;
      CountsSwaps(dns, log, a, k - 1);
      SwapLimit(At(dns, log, k - 1), log[k-1]);
    }
  }

  /** Between two `Enter` events there is at most one forward and at most one rollback swap. */
  lemma OneSwapEachWay(dns: string, log: seq<Event>, a: nat, b: nat)
    requires Conforms(Fresh(dns), log) && a < b <= |log| && log[a].Enter?
    requires forall m :: a < m < b ==> !log[m].Enter?
    ensures Swaps(log[a..b], false) <= 1 && Swaps(log[a..b], true) <= 1
  {
    CountsSwaps(dns, log, a, b);
  }
}
