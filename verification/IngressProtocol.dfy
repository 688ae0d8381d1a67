/** The public-ingress switch transaction as a protocol over atomic events.

    A run of the program is a log of events: writes of the persisted operation,
    changes of the live DNS A record, and observations.  `Allowed` says which
    event may come next, `Next` what it does.  The class in IngressSwitcher.dfy
    is proved to emit conforming logs only; IngressSafety.dfy proves what every
    conforming log satisfies.  A crash may cut a log anywhere: a prefix of a
    conforming log conforms, and the next call starts with `Enter`, which
    discards everything that was only held in memory. */
module IngressProtocol {
  import opened Wrappers

  datatype Phase =
    | Unset | Preparing | SubmittingDNS | WaitingRecursive | VerifyingRequest | Verified
    | RollingBack | RolledBack | RollbackFailed | RecoveryRequired | FailoverPending | Failed

  datatype Trigger = NoTrigger | AdminManual | AdminFixed | AutomaticHealth | AutomaticThreshold

  datatype Mode = NoMode | Preferred | Fixed

  datatype Code =
    | NoCode
    | UnknownNode | TargetNotEligible | TargetAddressInvalid | TargetPreflightFailed
    | ProviderReadFailed | IPv6RecordPresent
    | ProviderStateUnknown | ProviderUpdateUnverified | ProviderChangedConcurrently | ProviderUpdateFailed
    | StatePersistFailed | RecursiveVerificationFailed | PublicRequestFailed
    | NoEligibleCandidate | StateUnreadable

  const HOUR: int := 3600 * NANOS
  const NANOS: int := 1_000_000_000

  /** The persisted operation record.  Id 0 and "" stand for an absent field. */
  datatype Operation = Operation(
    id: nat,
    prior: nat,
    phase: Phase,
    trigger: Trigger,
    mode: Mode,
    requested: string,
    active: string,
    record: string,
    previous: string,
    source: string,
    desired: string,
    provider: string,
    recursive: string,
    requestVerified: bool,
    observed: string,
    rollbackAttempted: bool,
    rollbackVerified: bool,
    error: Code,
    completedAt: int)

  /** What an unset state key reads as. */
  const ZERO := Operation(0, 0, Unset, NoTrigger, NoMode, "", "", "", "", "", "", "", "", false, "", false, false,
                          NoCode, 0)

  predicate InFlight(phase: Phase) {
    phase.Preparing? || AfterSwap(phase) || phase.RollingBack?
    || phase.RecoveryRequired? || phase.RollbackFailed? || phase.FailoverPending?
  }

  predicate SafePreDNSFailure(code: Code) {
    code.UnknownNode? || code.TargetNotEligible? || code.TargetAddressInvalid? || code.TargetPreflightFailed?
  }

  /** Codes with which an operation can fail before it submits a DNS change. */
  predicate PreDNS(code: Code) {
    SafePreDNSFailure(code) || code == ProviderReadFailed || code == IPv6RecordPresent
  }

  predicate CanBePrior(op: Operation) {
    op.phase == Verified && op.requestVerified && op.active != "" && op.desired != ""
  }

  /** What survives a crash: the state key, the per-operation history keys, and the provider's record. */
  datatype Store = Store(current: Option<Operation>, history: map<nat, Operation>, dns: string) {
    function Op(): Operation {
      if current.Some? then current.value else ZERO
    }
  }

  datatype Call =
    | Idle
    | AdminSwitch(node: string, mode: Mode)
    | ConfirmPrevious(id: nat)
    | SchedulerPass

  /** Why an operation record is written. */
  datatype Step =
    | Begin | FailBeforeDNS | Submit | AwaitRecursive | AwaitRequest | Verify | FailAtDNS | GiveUp
    | StartRollback | Defer | EndRollback | PlanResume | NoteResume | FindNoCandidate | ConfirmRollback | Upgrade

  datatype SwapKind = Forward | Back | Resume

  datatype Event =
    | Enter(call: Call)                          // a call starts; after a crash this is the first event
    | Persist(step: Step, op: Operation)         // history key and state key written together
    | Restore(op: Operation)                     // state key alone written from history
    | Swap(kind: SwapKind, from: string, to: string, took: bool, acked: bool)
    | OutsideWrite(address: string)              // somebody else changed the record
    | SawRecord(address: string)                 // provider read
    | SawRecursive(address: string)              // every recursive answer is this address
    | SawPublic(node: string)                    // a fresh public request was answered by this node
    | SawNode(node: string, usable: bool)        // eligibility and runtime health of the active node
    | Judged(node: string, usable: bool)         // the reading a scheduler pass bases its decision on
    | Vetted(node: string)                       // candidate read and eligible
    | Probed(node: string, address: string)      // address resolved, preflight passed
    | MediaReady(node: string)                   // runtime media preflight passed
    | NoIPv6

  /** Durable state, the call that is running, and what it has learned so far. */
  datatype View = View(
    store: Store,
    began: string,                               // live record when the current operation was first persisted
    call: Call,
    drives: bool,                                // the running call has persisted the current operation
    begins: nat,                                 // operations begun by the running call
    forwards: nat, backs: nat,                   // swaps asked of the provider by the running call
    known: Option<string>,                       // provider value last read or acknowledged
    recursive: Option<string>,
    public: Option<string>,
    predecessor: Option<(string, bool)>,         // its latest reading, since the judgement if there is one
    judged: Option<(string, bool)>,
    vetted: Option<string>,
    probed: Option<(string, string)>,
    media: Option<string>,
    ipv4Only: bool)

  function Fresh(dns: string): View {
    View(Store(None, map[], dns), dns, Idle, false, 0, 0, 0, None, None, None, None, None, None, None, None, false)
  }

  function Next(v: View, e: Event): View {
    match e
    case Enter(c) =>
      View(v.store, v.began, c, false, 0, 0, 0, None, None, None, None, None, None, None, None, false)
    case Persist(step, op) =>
      v.(store := v.store.(current := Some(op), history := v.store.history[op.id := op]),
         began := if v.store.Op().id == op.id then v.began else v.store.dns,
         drives := true, begins := if step.Begin? then v.begins + 1 else v.begins)
    case Restore(op) =>
      v.(store := v.store.(current := Some(op)), drives := false)
    case Swap(kind, from, to, took, acked) =>
      v.(store := v.store.(dns := if took then to else v.store.dns),
         forwards := if kind == Back then v.forwards else v.forwards + 1,
         backs := if kind == Back then v.backs + 1 else v.backs,
         known := if acked then Some(to) else None,
         recursive := None, public := None)
    case OutsideWrite(a) => v.(store := v.store.(dns := a))
    case SawRecord(a) => v.(known := Some(a))
    case SawRecursive(a) => v.(recursive := Some(a))
    case SawPublic(n) => v.(public := Some(n))
    case SawNode(n, usable) => v.(predecessor := Some((n, usable)))
    case Judged(n, usable) => v.(judged := Some((n, usable)), predecessor := None)
    case Vetted(n) => v.(vetted := Some(n))
    case Probed(n, a) => v.(probed := Some((n, a)))
    case MediaReady(n) => v.(media := Some(n))
    case NoIPv6 => v.(ipv4Only := true)
  }

  // ---------- which writes of the operation record the protocol allows ----------

  /** Fields no later write of the same operation changes. */
  predicate SameOperation(cur: Operation, op: Operation) {
    op.id == cur.id && op.prior == cur.prior && op.trigger == cur.trigger && op.record == cur.record
  }

  predicate SameTarget(cur: Operation, op: Operation) {
    && SameOperation(cur, op)
    && op.mode == cur.mode && op.active == cur.active && op.requested == cur.requested
    && op.previous == cur.previous && op.source == cur.source && op.desired == cur.desired
  }

  predicate AdminTrigger(mode: Mode, trigger: Trigger) {
    mode != NoMode && trigger == if mode == Fixed then AdminFixed else AdminManual
  }

  /** Mode a verified forward switch of this call gets. */
  function CallMode(call: Call): Mode {
    if call.AdminSwitch? then call.mode else Preferred
  }

  /** Who may ask for a switch, to which node, at time `at`.  Only a scheduler pass outside
      fixed mode may do so by itself; a threshold switch waits out the cooldown.  The first one
      of a pass follows the judgement with no other reading in between. */
  predicate MayRequest(v: View, node: string, trigger: Trigger, at: int) {
    var cur := v.store.Op();
    && v.forwards == 0 && v.backs == 0 && node != ""
    && match v.call
       case AdminSwitch(wanted, mode) => node == wanted && AdminTrigger(mode, trigger)
       case SchedulerPass =>
         && cur.mode != Fixed && (cur.phase == Verified || cur.phase == RolledBack)
         && node != cur.active && (v.begins == 0 ==> v.predecessor.None?)
         && ((trigger == AutomaticHealth && v.judged == Some((cur.active, false)))
             || (trigger == AutomaticThreshold && v.judged == Some((cur.active, true))
                 && (cur.phase == Verified ==> at - cur.completedAt * NANOS >= HOUR)))
       case _ => false
  }

  /** A new operation: only over one that is not in flight, with a fresh id, keeping node and mode. */
  predicate Begins(v: View, op: Operation) {
    var cur := v.store.Op();
    && !InFlight(cur.phase) && op.phase == Preparing
    && op.id != 0 && op.id !in v.store.history
    && op.mode == cur.mode && op.active == cur.active
    && op.prior == (if CanBePrior(cur) then cur.id else 0)
    && op.previous == op.desired == op.source == "" && !op.requestVerified
    && MayRequest(v, op.requested, op.trigger, op.id)
  }

  predicate FailsBeforeDNS(v: View, op: Operation) {
    var cur := v.store.Op();
    && v.drives && cur.phase == Preparing && op.phase == Failed && PreDNS(op.error)
    && SameOperation(cur, op) && op.mode == cur.mode && op.active == cur.active && op.requested == cur.requested
    && op.source == "" && !op.requestVerified
  }

  predicate Submits(v: View, op: Operation) {
    var cur := v.store.Op();
    && v.drives && cur.phase == Preparing && op.phase == SubmittingDNS
    && SameOperation(cur, op) && op.mode == cur.mode && op.active == cur.active && op.requested == cur.requested
    && op.source == "" && !op.requestVerified && op.previous != "" && op.desired != ""
    && v.known == Some(op.previous) && v.vetted == Some(op.requested)
    && v.probed == Some((op.requested, op.desired)) && v.media == Some(op.requested) && v.ipv4Only
    && v.forwards == 0 && v.backs == 0
  }

  /** The provider acknowledged the change. */
  predicate AwaitsRecursive(v: View, op: Operation) {
    var cur := v.store.Op();
    && v.drives && cur.phase == SubmittingDNS && op.phase == WaitingRecursive && SameTarget(cur, op)
    && v.forwards == 1 && v.backs == 0 && v.known == Some(op.desired)
  }

  predicate AwaitsRequest(v: View, op: Operation) {
    var cur := v.store.Op();
    && v.drives && cur.phase == WaitingRecursive && op.phase == VerifyingRequest && SameTarget(cur, op)
    && v.backs == 0 && v.known == Some(op.desired) && v.recursive == Some(op.desired)
  }

  /** The only write that may change the active node. */
  predicate Verifies(v: View, op: Operation) {
    var cur := v.store.Op();
    && v.drives && (v.call.AdminSwitch? || v.call == SchedulerPass)
    && op.phase == Verified && op.requestVerified && op.error == NoCode
    && SameOperation(cur, op) && op.requested == cur.requested
    && op.previous == cur.previous && op.source == cur.source && op.desired == cur.desired
    && op.active == cur.requested && op.mode != NoMode
    && v.backs == 0 && v.known == Some(op.desired)
    && v.recursive == Some(op.desired) && v.public == Some(op.active)
    && ((cur.phase == VerifyingRequest && op.mode == CallMode(v.call))
        || (cur.phase == FailoverPending && v.call == SchedulerPass && op.mode == Preferred))
  }

  /** The provider refused the change and still shows the old address. */
  predicate FailsAtDNS(v: View, op: Operation) {
    var cur := v.store.Op();
    && v.drives && cur.phase == SubmittingDNS && op.phase == Failed && op.error == ProviderUpdateFailed
    && SameTarget(cur, op) && !op.requestVerified
    && v.forwards == 1 && v.known == Some(op.previous)
  }

  predicate GivesUp(v: View, op: Operation) {
    var cur := v.store.Op();
    && v.drives && v.forwards == 1 && cur.phase == SubmittingDNS && op.phase == RecoveryRequired
    && (op.error.ProviderStateUnknown? || op.error.ProviderChangedConcurrently?) && SameTarget(cur, op)
  }

  predicate AfterSwap(phase: Phase) {
    phase.SubmittingDNS? || phase.WaitingRecursive? || phase.VerifyingRequest?
  }

  predicate PredecessorUsable(v: View, op: Operation) {
    op.trigger == AutomaticHealth ==> v.predecessor == Some((op.active, true))
  }

  predicate StartsRollback(v: View, op: Operation) {
    var cur := v.store.Op();
    && v.drives && v.forwards == 1 && AfterSwap(cur.phase) && op.phase == RollingBack && SameTarget(cur, op)
    && op.rollbackAttempted && PredecessorUsable(v, op)
  }

  /** The predecessor is dead: leave DNS on the candidate and let a later pass move forward. */
  predicate DefersToFailover(v: View, op: Operation) {
    var cur := v.store.Op();
    && v.drives && v.forwards == 1 && AfterSwap(cur.phase) && op.phase == FailoverPending && SameTarget(cur, op)
    && op.trigger == AutomaticHealth && v.predecessor == Some((op.active, false))
  }

  predicate EndsRollback(v: View, op: Operation) {
    var cur := v.store.Op();
    && v.drives && v.forwards == 1 && (AfterSwap(cur.phase) || cur.phase == RollingBack) && SameTarget(cur, op)
    && op.rollbackAttempted && PredecessorUsable(v, op)
    && op.phase == (if op.rollbackVerified then RolledBack else RollbackFailed)
    && (op.rollbackVerified ==>
          && op.active != "" && v.known == Some(op.previous)
          && v.recursive == Some(op.previous) && v.public == Some(op.active))
  }

  /** What the scheduler must find persisted before it resumes an interrupted operation. */
  predicate Resumable(cur: Operation) {
    InFlight(cur.phase) && cur.trigger == AutomaticHealth && cur.mode == Preferred
    && cur.previous != "" && cur.desired != ""
  }

  predicate Named(op: Operation, address: string) {
    address == op.previous || address == op.desired || (op.source != "" && address == op.source)
  }

  /** Intent is persisted before the compare-and-swap. */
  predicate PlansResume(v: View, op: Operation) {
    var cur := v.store.Op();
    && v.call == SchedulerPass && !v.drives && Resumable(cur) && op.phase == FailoverPending
    && SameOperation(cur, op) && op.mode == cur.mode && op.active == cur.active && op.previous == cur.previous
    && op.requested != op.active && op.requested != "" && op.desired != "" && !op.requestVerified
    && v.predecessor == Some((cur.active, false))
    && v.known == Some(op.source) && Named(cur, op.source) && op.source != ""
    && v.vetted == Some(op.requested) && v.probed == Some((op.requested, op.desired))
    && v.media == Some(op.requested) && v.ipv4Only
    && v.forwards == 0 && v.backs == 0
  }

  predicate NotesResume(v: View, op: Operation) {
    var cur := v.store.Op();
    && v.call == SchedulerPass && v.drives && cur.phase == FailoverPending && op.phase == FailoverPending
    && SameTarget(cur, op)
  }

  predicate FindsNoCandidate(v: View, op: Operation) {
    var cur := v.store.Op();
    && v.call == SchedulerPass && !v.drives && Resumable(cur) && op.phase == FailoverPending
    && op.error == NoEligibleCandidate && SameTarget(cur, op)
    && v.predecessor == Some((cur.active, false))
    && v.known.Some? && Named(cur, v.known.value)
  }

  /** Read-only closing of an in-flight operation by an administrator. */
  predicate ConfirmsPrevious(v: View, op: Operation) {
    var cur := v.store.Op();
    && v.call == ConfirmPrevious(cur.id) && InFlight(cur.phase) && op.phase == RolledBack
    && SameTarget(cur, op) && op.previous != "" && op.active != ""
    && op.requestVerified && op.rollbackAttempted && op.rollbackVerified
    && v.known == Some(op.previous) && v.recursive == Some(op.previous) && v.public == Some(op.active)
    && v.ipv4Only && v.forwards == 0 && v.backs == 0
  }

  /** Migration of records written by an older user interface. */
  predicate Upgrades(v: View, op: Operation) {
    var cur := v.store.Op();
    && v.call == SchedulerPass && cur.phase == Verified && cur.mode == Fixed && cur.trigger == AdminManual
    && cur.requestVerified && op == cur.(mode := Preferred)
  }

  predicate MayPersist(v: View, step: Step, op: Operation) {
    match step
    case Begin => Begins(v, op)
    case FailBeforeDNS => FailsBeforeDNS(v, op)
    case Submit => Submits(v, op)
    case AwaitRecursive => AwaitsRecursive(v, op)
    case AwaitRequest => AwaitsRequest(v, op)
    case Verify => Verifies(v, op)
    case FailAtDNS => FailsAtDNS(v, op)
    case GiveUp => GivesUp(v, op)
    case StartRollback => StartsRollback(v, op)
    case Defer => DefersToFailover(v, op)
    case EndRollback => EndsRollback(v, op)
    case PlanResume => PlansResume(v, op)
    case NoteResume => NotesResume(v, op)
    case FindNoCandidate => FindsNoCandidate(v, op)
    case ConfirmRollback => ConfirmsPrevious(v, op)
    case Upgrade => Upgrades(v, op)
  }

  /** The prior verified operation may come back after a failure that touched nothing. */
  predicate MayRestore(v: View, op: Operation) {
    var cur := v.store.Op();
    && v.call == SchedulerPass && cur.phase == Failed && SafePreDNSFailure(cur.error) && cur.prior != 0
    && cur.prior in v.store.history && op == v.store.history[cur.prior]
    && op.id == cur.prior && CanBePrior(op) && op.active == cur.active && op.mode == cur.mode
    && v.known == Some(op.desired) && v.recursive == Some(op.desired) && v.ipv4Only
    && v.forwards == 0 && v.backs == 0
    && (v.public == Some(op.active)
        || (cur.trigger == AutomaticHealth && v.predecessor == Some((op.active, false))))
  }

  /** A swap request: what the provider does with it, and which requests the protocol makes. */
  predicate ProviderBehaves(v: View, from: string, took: bool, acked: bool) {
    (acked ==> took) && (took ==> from == "" || v.store.dns == from)
  }

  predicate MaySwap(v: View, kind: SwapKind, from: string, to: string) {
    var cur := v.store.Op();
    && v.drives && from != "" && to != ""
    && match kind
       case Forward =>
         && (v.call.AdminSwitch? || v.call == SchedulerPass)
         && v.forwards == 0 && v.backs == 0
         && cur.phase == SubmittingDNS && from == cur.previous && to == cur.desired
       case Back =>
         && v.backs == 0 && (AfterSwap(cur.phase) || cur.phase == RollingBack)
         && from == cur.desired && to == cur.previous && v.known == Some(from)
         && PredecessorUsable(v, cur)
       case Resume =>
         && v.call == SchedulerPass && v.forwards == 0 && v.backs == 0
         && cur.phase == FailoverPending && from == cur.source && to == cur.desired && v.known == Some(from)
  }

  predicate Allowed(v: View, e: Event) {
    match e
    case Persist(step, op) => MayPersist(v, step, op)
    case Restore(op) => MayRestore(v, op)
    case Swap(kind, from, to, took, acked) => MaySwap(v, kind, from, to) && ProviderBehaves(v, from, took, acked)
    case OutsideWrite(a) => a != ""
    case SawRecord(a) => a == v.store.dns
    case SawNode(_, _) => v.judged.Some? ==> v.begins > 0 && v.store.Op().trigger == AutomaticHealth
    case _ => true
  }

  /** What every persisted operation record satisfies. */
  predicate WellFormed(op: Operation) {
    && op.phase != Unset
    && (InFlight(op.phase) ==> op.requested != "")
    && (op.phase == Preparing ==> op.previous == "")
    && (InFlight(op.phase) && op.phase != Preparing ==> op.previous != "" && op.desired != "")
    && (op.phase == Verified ==> CanBePrior(op) && op.mode != NoMode)
  }

  /** The state key always agrees with the history key written beside it. */
  ghost predicate Coherent(v: View) {
    && 0 !in v.store.history
    && (forall id <- v.store.history :: v.store.history[id].id == id && WellFormed(v.store.history[id]))
    && (v.store.current.Some? ==>
          var op := v.store.current.value; op.id in v.store.history && v.store.history[op.id] == op)
  }

  lemma PersistWellFormed(v: View, step: Step, op: Operation)
    requires Coherent(v) && MayPersist(v, step, op)
    ensures WellFormed(op) && op.id != 0
  {
    if !step.Begin? {
      assert v.store.current.Some?;
      assert WellFormed(v.store.Op());
    }
  }

  lemma StepCoherent(v: View, e: Event)
    requires Coherent(v) && Allowed(v, e)
    ensures Coherent(Next(v, e))
  {
    if e.Persist? { PersistWellFormed(v, e.step, e.op); }
  }

  // ---------- runs ----------

  function Replay(v: View, log: seq<Event>): View {
    if log == [] then v else Next(Replay(v, log[..|log|-1]), log[|log|-1])
  }

  predicate Conforms(v: View, log: seq<Event>) {
    log == [] || (Conforms(v, log[..|log|-1]) && Allowed(Replay(v, log[..|log|-1]), log[|log|-1]))
  }

  lemma Extend(v: View, log: seq<Event>, e: Event)
    ensures Replay(v, log + [e]) == Next(Replay(v, log), e)
    ensures Conforms(v, log + [e]) <==> Conforms(v, log) && Allowed(Replay(v, log), e)
  {
    assert (log + [e])[..|log + [e]| - 1] == log;
  }
}
