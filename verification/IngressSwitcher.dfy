/** The switcher itself: the code path by path, emitting the events of IngressProtocol. */
module IngressSwitcher {
  import opened Wrappers
  import opened IngressProtocol

  /** The fields of a proxy node the switch reads; `healthy` is State == "healthy". */
  datatype ProxyNode = ProxyNode(
    id: string, enabled: bool, healthy: bool, playback: bool, ingress: bool, synced: bool,
    lastHeartbeat: int, quota: int, used: int, threshold: real)

  const UNREADABLE := ZERO.(phase := RecoveryRequired, error := StateUnreadable)
  const HEARTBEAT_SECONDS := 300

  predicate Eligible(n: ProxyNode, now: int) {
    n.enabled && n.healthy && n.playback && n.ingress && n.synced && n.lastHeartbeat > now - HEARTBEAT_SECONDS
  }

  predicate OverThreshold(n: ProxyNode) {
    n.quota > 0 && n.threshold > 0.0 && n.used as real * 100.0 >= n.quota as real * n.threshold
  }

  /** The same view with a record that somebody else may have changed. */
  function Drift(v: View, dns: string): View {
    v.(store := v.store.(dns := dns))
  }

  /** The history entries of every other operation. */
  ghost function Others(history: map<nat, Operation>, id: nat): map<nat, Operation> {
    history - {id}
  }

  lemma OthersKeep(was: map<nat, Operation>, now: map<nat, Operation>, id: nat, i: nat)
    requires Others(was, id) == Others(now, id) && i != id && i in was
    ensures i in now && now[i] == was[i]
  {
    assert i in Others(was, id);
  }

  datatype Outcome = Done | NoCandidate | Refused

  class Switcher {
    // durable
    var store: Store
    // nanoseconds; read through Now, strictly increasing
    var clock: nat
    const record: string

    ghost const start: string
    ghost var log: seq<Event>
    ghost var view: View

    ghost predicate Tracking()
      reads this
    {
      Conforms(Fresh(start), log) && view == Replay(Fresh(start), log)
    }

    ghost predicate Valid()
      reads this
    {
      && Tracking() && Coherent(view)
      && view.store == store && store.dns != ""
      && (forall id <- store.history :: id <= clock)
    }

    /** A first installation: nothing persisted. */
    constructor Install(record: string, dns: string)
      requires dns != ""
      ensures Valid() && log == [] && start == dns && this.record == record
      ensures store == Store(None, map[], dns)
    {
      this.store, this.clock, this.record := Store(None, map[], dns), 0, record;
      this.start, this.log, this.view := dns, [], Fresh(dns);
    }

    /** A process started on whatever a crashed one left: any prefix of any earlier run.  The
        configured record may be another one; what it shows is then an outside write. */
    constructor Reopen(record: string, store: Store, clock: nat, ghost start: string, ghost survived: seq<Event>)
      requires Conforms(Fresh(start), survived) && Replay(Fresh(start), survived).store == store
      requires Coherent(Replay(Fresh(start), survived)) && store.dns != ""
      requires forall id <- store.history :: id <= clock
      ensures Valid() && this.start == start && log == survived && this.record == record && this.store == store
    {
      this.store, this.clock, this.record := store, clock, record;
      this.start, this.log, this.view := start, survived, Replay(Fresh(start), survived);
    }

    lemma Recorded()
      requires Valid() && view.store.current.Some?
      ensures store.Op().id in store.history && store.history[store.Op().id] == store.Op()
      ensures store.Op().id <= clock && WellFormed(store.Op())
      ensures view.store == store
    {
    }

    lemma HistoryEntry(id: nat)
      requires Valid() && id in store.history
      ensures id in view.store.history && store.history[id] == view.store.history[id] && store.history[id].id == id
    {
    }

    ghost method Emit(e: Event)
      requires Tracking() && Allowed(view, e)
      modifies `log, `view
      ensures Tracking() && log == old(log) + [e] && view == Next(old(view), e)
    {
      Extend(Fresh(start), log, e);
      log, view := log + [e], Next(view, e);
    }

    // ---------- the world ----------

    method Now() returns (t: nat)
      requires Valid()
      modifies `clock
      ensures Valid() && t == clock > old(clock)
    {
      var elapsed: nat :| 0 <= elapsed;
      clock := clock + elapsed + 1;
      t := clock;
    }

    /** An actor outside this process may write the record at any time. */
    method Interfere()
      requires Valid()
      modifies `store, `log, `view
      ensures Valid() && old(log) <= log && view == Drift(old(view), store.dns)
    {
      var happens: bool := *;
      if happens {
        var address: string := *;
        if address != "" {
          Emit(OutsideWrite(address));
          store := store.(dns := address);
        }
      }
    }

    /** An observation that changes nothing durable. */
    ghost method Observe(e: Event)
      requires Valid() && !e.Persist? && !e.Restore? && !e.Swap? && !e.OutsideWrite?
      requires e.SawRecord? ==> e.address == store.dns
      requires e.SawNode? && view.judged.Some? ==> view.begins > 0 && view.store.Op().trigger == AutomaticHealth
      modifies `log, `view
      ensures Valid() && log == old(log) + [e] && view == Next(old(view), e)
    {
      hide Conforms, Replay;
      Emit(e);
    }

    method Status() returns (op: Operation)
      requires Valid()
      ensures op == view.store.Op() || op == UNREADABLE
    {
      var readable: bool := *;
      op := if !readable then UNREADABLE else store.Op();
    }

    /** History key and state key are written in one transaction.  A commit whose
        answer is lost reports failure although it took effect. */
    method Save(ghost step: Step, op: Operation) returns (ok: bool)
      requires Valid() && MayPersist(view, step, op) && op.id <= clock
      modifies `store, `log, `view
      ensures Valid() && old(log) <= log
      ensures view == Next(old(view), Persist(step, op)) || (!ok && view == old(view))
      ensures Others(view.store.history, op.id) == Others(old(view.store.history), op.id)
    {
      var applied: bool, answered: bool := *, *;
      ok := applied && answered;
      if applied {
        StepCoherent(view, Persist(step, op));
        Emit(Persist(step, op));
        store := store.(current := Some(op), history := store.history[op.id := op]);
      }
    }

    method PutCurrent(op: Operation) returns (ok: bool)
      requires Valid() && MayRestore(view, op)
      modifies `store, `log, `view
      ensures Valid() && old(log) <= log
      ensures view == Next(old(view), Restore(op)) || (!ok && view == old(view))
    {
      var applied: bool, answered: bool := *, *;
      ok := applied && answered;
      if applied {
        StepCoherent(view, Restore(op));
        Emit(Restore(op));
        store := store.(current := Some(op));
      }
    }

    method ExactRecord() returns (address: Option<string>)
      requires Valid()
      modifies `store, `log, `view
      ensures Valid() && old(log) <= log
      ensures address.Some? ==>
                address.value != "" && view == Next(Drift(old(view), store.dns), SawRecord(address.value))
      ensures address.None? ==> view == Drift(old(view), store.dns)
    {
      hide Conforms, Replay;
      Interfere();
      var reachable: bool := *;
      if !reachable { return None; }
      address := Some(store.dns);
      Observe(SawRecord(store.dns));
    }

    /** Compare-and-swap at the provider; its answer may be lost after it took effect. */
    method ReplaceExactA(ghost kind: SwapKind, from: string, to: string) returns (ok: bool)
      requires Valid() && MaySwap(view, kind, from, to)
      modifies `store, `log, `view
      ensures Valid() && old(log) <= log
      ensures view == Drift(Next(old(view), Swap(kind, from, to, ok, ok)), store.dns)
    {
      hide Conforms, Replay, Coherent, Switcher.Tracking, Switcher.Valid;
      Interfere();
      ok := SwapAtProvider(kind, from, to);
    }

    method SwapAtProvider(ghost kind: SwapKind, from: string, to: string) returns (ok: bool)
      requires Valid() && MaySwap(view, kind, from, to)
      modifies `store, `log, `view
      ensures Valid() && old(log) <= log
      ensures view == Drift(Next(old(view), Swap(kind, from, to, ok, ok)), store.dns)
    {
      hide Conforms, Replay;
      var delivered: bool, answered: bool := *, *;
      ghost var took := delivered && store.dns == from;
      ok := delivered && store.dns == from && answered;
      Emit(Swap(kind, from, to, took, ok));
      if delivered && store.dns == from {
        store := store.(dns := to);
      }
    }

    method RejectIPv6() returns (ok: bool)
      requires Valid()
      modifies `log, `view
      ensures Valid() && old(log) <= log
      ensures view == if ok then Next(old(view), NoIPv6) else old(view)
    {
      ok := *;
      if ok { Observe(NoIPv6); }
    }

    /** Some(node) is a stored node, Some(None) an absent one, None a failed read. */
    method GetProxyNode(id: string) returns (node: Option<Option<ProxyNode>>)
      ensures node.Some? && node.value.Some? ==> node.value.value.id == id
    {
      var n: ProxyNode, present: bool, readable: bool := *, *, *;
      node := if !readable then None else if present then Some(Some(n.(id := id))) else Some(None);
    }

    /** Node ids are primary keys and never empty. */
    method ListProxyNodes() returns (nodes: Option<seq<ProxyNode>>)
      ensures nodes.Some? ==> forall n <- nodes.value :: n.id != ""
    {
      nodes := *;
      if nodes.Some? && exists n <- nodes.value :: n.id == "" { nodes := None; }
    }

    method RuntimeIngressHealthy(n: ProxyNode) returns (healthy: bool) {
      healthy := *;
    }

    /** Absent, ineligible or failing nodes are not usable as a predecessor. */
    method Usable(node: Option<ProxyNode>) returns (usable: bool)
      requires Valid()
      modifies `clock
      ensures Valid() && clock >= old(clock)
      ensures usable ==> node.Some? && node.value.enabled && node.value.healthy
    {
      if node.None? { return false; }
      var now := Now();
      if !Eligible(node.value, now / NANOS) { return false; }
      usable := RuntimeIngressHealthy(node.value);
    }

    /** The IPv4 address of a node's registered origin, and the preflight of that address. */
    method Preflight(n: ProxyNode) returns (address: Option<string>, reached: bool)
      requires Valid()
      modifies `log, `view
      ensures Valid() && old(log) <= log
      ensures address.Some? ==> address.value != ""
      ensures view == if address.Some? && reached then Next(old(view), Probed(n.id, address.value)) else old(view)
    {
      address, reached := *, *;
      if address == Some("") { address := None; }
      if address.Some? && reached { Observe(Probed(n.id, address.value)); }
    }

    method RuntimeMediaPreflight(n: ProxyNode) returns (ok: bool)
      requires Valid()
      modifies `log, `view
      ensures Valid() && old(log) <= log
      ensures view == if ok then Next(old(view), MediaReady(n.id)) else old(view)
    {
      ok := *;
      if ok { Observe(MediaReady(n.id)); }
    }

    predicate AnswersMatch(answers: seq<string>, want: string) {
      answers != [] && forall a <- answers :: a == want
    }

    method LookupHost() returns (answers: seq<string>) {
      answers := *;
    }

    /** Polls until every recursive answer is the wanted address, or time is up. */
    method WaitRecursive(want: string) returns (last: string, ok: bool)
      requires Valid()
      modifies `log, `view
      ensures Valid() && old(log) <= log
      ensures ok ==> last == want
      ensures view == if ok then Next(old(view), SawRecursive(want)) else old(view)
    {
      var polls: nat := *;
      last := "";
      while polls > 0
        invariant Valid() && log == old(log) && view == old(view)
      {
        var answers := LookupHost();
        if answers != [] {
          last := answers[|answers|-1];
          if AnswersMatch(answers, want) {
            Observe(SawRecursive(want));
            return want, true;
          }
        }
        polls := polls - 1;
      }
      return last, false;
    }

    /** One fresh request to the public name; only the expected node's identity counts. */
    method VerifyPublicRequest(expected: string) returns (observed: string, ok: bool)
      requires Valid()
      modifies `log, `view
      ensures Valid() && old(log) <= log
      ensures ok ==> observed == expected
      ensures view == if ok then Next(old(view), SawPublic(expected)) else old(view)
    {
      var status: nat := *;
      observed := *;
      ok := status == 200 && observed == expected;
      if ok { Observe(SawPublic(expected)); }
    }

    method WaitPublicRequest(node: string) returns (observed: string, ok: bool)
      requires Valid()
      modifies `log, `view
      ensures Valid() && old(log) <= log
      ensures ok ==> observed == node
      ensures view == if ok then Next(old(view), SawPublic(node)) else old(view)
    {
      var retries: nat := *;
      observed, ok := VerifyPublicRequest(node);
      while !ok && retries > 0
        invariant Valid() && old(log) <= log
        invariant ok ==> observed == node
        invariant view == if ok then Next(old(view), SawPublic(node)) else old(view)
        decreases retries
      {
        var certificateError: bool := *;
        if certificateError { return; }
        observed, ok := VerifyPublicRequest(node);
        retries := retries - 1;
      }
    }

    // ---------- the forward switch ----------

    /** Later writes of one operation touch only its own history key and the state key. */
    ghost predicate Continues(was: View)
      reads this
    {
      var op := view.store.Op();
      && view.store.current.Some? && was.store.current.Some? && view.drives && view.call == was.call
      && SameOperation(was.store.Op(), op)
      && Others(view.store.history, op.id) == Others(was.store.history, op.id)
      && view.judged == was.judged && view.begins == was.begins
    }

    /** The persisted operation is `op`, written by this call. */
    ghost predicate Driving(op: Operation)
      reads this
    {
      view.drives && view.store.current == Some(op) && op.id <= clock
    }

    method Fail(ghost step: Step, op: Operation, code: Code) returns (state: Operation, ok: bool)
      requires Valid() && op.id <= clock && op.id == view.store.Op().id
      requires (step.FailBeforeDNS? || step.FailAtDNS?) && MayPersist(view, step, op.(phase := Failed, error := code))
      modifies `clock, `store, `log, `view
      ensures Valid() && old(log) <= log && clock > old(clock) && !ok
      ensures state == op.(phase := Failed, error := code, completedAt := state.completedAt)
      ensures view == Next(old(view), Persist(step, state)) || view == old(view)
      ensures Others(view.store.history, op.id) == Others(old(view.store.history), op.id)
    {
      hide Conforms, Replay, Coherent, Others, Switcher.Tracking, Switcher.Valid;
      var now := Now();
      state := op.(phase := Failed, error := code, completedAt := now / NANOS);
      var _ := Save(step, state);
      ok := false;
    }

    /** Checks of the target itself, in order; the first that fails names the code. */
    method VetNode(requested: string) returns (address: string, failure: Option<Code>)
      requires Valid()
      modifies `clock, `log, `view
      ensures Valid() && old(log) <= log && clock >= old(clock)
      ensures view == old(view).(vetted := view.vetted, probed := view.probed, media := view.media)
      ensures failure.Some? ==> SafePreDNSFailure(failure.value)
      ensures failure.None? ==>
                && address != "" && view.vetted == Some(requested)
                && view.probed == Some((requested, address)) && view.media == Some(requested)
    {
      hide Conforms, Replay, Coherent, Others, Switcher.Tracking, Switcher.Valid;
      address, failure := "", None;
      var node := GetProxyNode(requested);
      if node.None? || node.value.None? { return address, Some(UnknownNode); }
      var n := node.value.value;
      var now := Now();
      if !Eligible(n, now / NANOS) { return address, Some(TargetNotEligible); }
      Observe(Vetted(n.id));
      var resolved, reached := Preflight(n);
      if resolved.None? { return address, Some(TargetAddressInvalid); }
      address := resolved.value;
      if !reached { return address, Some(TargetPreflightFailed); }
      var playable := RuntimeMediaPreflight(n);
      if !playable { failure := Some(TargetPreflightFailed); }
    }

    /** The checks before anything may be submitted. */
    method Vet(op: Operation) returns (state: Operation, failure: Option<Code>)
      requires Valid() && op.id <= clock
      modifies this
      ensures Valid() && old(log) <= log && clock >= old(clock)
      ensures view.store.(dns := "") == old(view).store.(dns := "")
      ensures view.drives == old(view).drives && view.call == old(view).call && view.judged == old(view).judged
      ensures view.begins == old(view).begins
      ensures view.forwards == old(view).forwards && view.backs == old(view).backs
      ensures state == op.(desired := state.desired, previous := state.previous)
      ensures failure.Some? ==> PreDNS(failure.value)
      ensures failure.None? ==>
                && state.previous != "" && state.desired != "" && view.known == Some(state.previous)
                && view.vetted == Some(op.requested) && view.probed == Some((op.requested, state.desired))
                && view.media == Some(op.requested) && view.ipv4Only
    {
      hide Conforms, Replay, Coherent, Others, Switcher.Tracking, Switcher.Valid;
      state := op;
      var address;
      address, failure := VetNode(op.requested);
      state := state.(desired := address);
      if failure.Some? { return; }
      var live := ExactRecord();
      if live.None? { return state, Some(ProviderReadFailed); }
      state := state.(previous := live.value);
      var ipv4 := RejectIPv6();
      if !ipv4 { failure := Some(IPv6RecordPresent); }
    }

    /** Everything up to and including the persisted intent to change DNS. */
    method Prepare(op: Operation) returns (state: Operation, ok: bool)
      requires Valid() && Driving(op) && op.phase == Preparing && op.source == "" && !op.requestVerified
      requires view.forwards == 0 && view.backs == 0
      modifies this
      ensures Valid() && old(log) <= log && clock >= old(clock)
      ensures Continues(old(view)) && view.forwards == 0 && view.backs == 0
      ensures var phase := view.store.Op().phase; phase.Preparing? || phase.SubmittingDNS? || phase.Failed?
      ensures view.store.Op().active == op.active && view.store.Op().mode == op.mode
      ensures view.store.Op().requested == op.requested
      ensures ok ==> Driving(state) && state.phase == SubmittingDNS && state.previous != "" && state.desired != ""
      ensures ok ==> SameOperation(op, state) && !state.requestVerified
    {
      hide Conforms, Replay, Coherent, Others, Switcher.Tracking, Switcher.Valid;
      var failure;
      state, failure := Vet(op);
      if failure.Some? {
        state, ok := Fail(FailBeforeDNS, state, failure.value);
      } else {
        state := state.(phase := SubmittingDNS);
        ok := Save(Step.Submit, state);
      }
    }

    /** The provider did not acknowledge the change: its record says what happened. */
    method Unacknowledged(op: Operation) returns (state: Operation, ok: bool)
      requires Valid() && Driving(op) && op.phase == SubmittingDNS && op.previous != "" && op.desired != ""
      requires view.begins > 0 && !op.requestVerified && view.forwards == 1 && view.backs == 0
      modifies this
      ensures Valid() && old(log) <= log && clock >= old(clock) && !ok
      ensures Continues(old(view)) && SameTarget(op, view.store.Op()) && view.forwards == 1 && view.backs <= 1
      ensures view.store.Op().phase == Failed ==> view.store.Op().error == ProviderUpdateFailed
      ensures !view.store.Op().phase.Preparing? && !view.store.Op().phase.Verified?
    {
      hide Conforms, Replay, Coherent, Others, Switcher.Tracking, Switcher.Valid;
      var observed := ExactRecord();
      if observed == Some(op.desired) {
        state, ok := Rollback(op, ProviderUpdateUnverified);
      } else {
        state, ok := NotApplied(op, observed);
      }
    }

    /** The record is back where it was, or is not this operation's to judge. */
    method NotApplied(op: Operation, observed: Option<string>) returns (state: Operation, ok: bool)
      requires Valid() && Driving(op) && op.phase == SubmittingDNS
      requires (observed.Some? ==> view.known == observed) && view.forwards == 1 && !op.requestVerified
      modifies this
      ensures Valid() && old(log) <= log && clock >= old(clock) && !ok
      ensures Continues(old(view)) && SameTarget(op, view.store.Op())
      ensures view.forwards == old(view).forwards && view.backs == old(view).backs
      ensures view.store.Op().phase == Failed ==> view.store.Op().error == ProviderUpdateFailed
      ensures !view.store.Op().phase.Preparing? && !view.store.Op().phase.Verified?
    {
      hide Conforms, Replay, Coherent, Others, Switcher.Tracking, Switcher.Valid;
      if observed == Some(op.previous) {
        state, ok := Fail(FailAtDNS, op, ProviderUpdateFailed);
      } else {
        state, ok := Stop(op, if observed.None? then ProviderStateUnknown else ProviderChangedConcurrently);
      }
    }

    /** Leaves the operation to an administrator. */
    method Stop(op: Operation, code: Code) returns (state: Operation, ok: bool)
      requires Valid() && Driving(op) && op.phase == SubmittingDNS
      requires view.forwards == 1
      requires code.ProviderStateUnknown? || code.ProviderChangedConcurrently?
      modifies this
      ensures Valid() && old(log) <= log && clock >= old(clock) && !ok
      ensures Continues(old(view)) && SameTarget(op, view.store.Op())
      ensures view.forwards == old(view).forwards && view.backs == old(view).backs
      ensures view.store.Op().phase.SubmittingDNS? || view.store.Op().phase.RecoveryRequired?
    {
      hide Conforms, Replay, Coherent, Others, Switcher.Tracking, Switcher.Valid;
      state, ok := op.(phase := RecoveryRequired, error := code), false;
      var _ := Save(GiveUp, state);
    }

    /** The swap itself, acknowledged or not. */
    method Submit(op: Operation) returns (state: Operation, ok: bool)
      requires Valid() && Driving(op) && op.phase == SubmittingDNS && op.previous != "" && op.desired != ""
      requires (view.call.AdminSwitch? || view.call == SchedulerPass) && !op.requestVerified
      requires view.begins > 0 && view.forwards == 0 && view.backs == 0
      modifies this
      ensures Valid() && old(log) <= log && clock >= old(clock)
      ensures Continues(old(view)) && SameTarget(op, view.store.Op()) && view.forwards == 1 && view.backs <= 1
      ensures view.store.Op().phase == Failed ==> view.store.Op().error == ProviderUpdateFailed
      ensures !view.store.Op().phase.Preparing? && !view.store.Op().phase.Verified?
      ensures ok ==> Driving(state) && state.phase == WaitingRecursive && SameTarget(op, state)
      ensures ok ==> view.known == Some(state.desired) && view.backs == 0 && !state.requestVerified
    {
      hide Conforms, Replay, Coherent, Others, Switcher.Tracking, Switcher.Valid;
      var updated := ReplaceExactA(Forward, op.previous, op.desired);
      if !updated { state, ok := Unacknowledged(op); return; }
      state := op.(provider := op.desired, phase := WaitingRecursive);
      ok := Save(AwaitRecursive, state);
      if !ok { state, ok := Rollback(state, StatePersistFailed); }
    }

    /** Recursive verification of an acknowledged change. */
    method ConfirmRecursive(op: Operation) returns (state: Operation, ok: bool)
      requires Valid() && Driving(op) && op.phase == WaitingRecursive && op.previous != "" && op.desired != ""
      requires view.begins > 0 && view.forwards == 1 && view.known == Some(op.desired) && view.backs == 0
      modifies this
      ensures Valid() && old(log) <= log && clock >= old(clock)
      ensures Continues(old(view)) && view.forwards == old(view).forwards && view.backs <= 1
      ensures RollbackPhase(view.store.Op().phase) && SameTarget(op, view.store.Op())
      ensures ok ==> Driving(state) && state.phase == VerifyingRequest && SameTarget(op, state) && view.backs == 0
      ensures ok ==> view.known == Some(op.desired) && view.recursive == Some(op.desired)
    {
      hide Conforms, Replay, Coherent, Others, Switcher.Tracking, Switcher.Valid;
      var recursive, converged := WaitRecursive(op.desired);
      state := op.(recursive := recursive);
      if !converged { state, ok := Rollback(state, RecursiveVerificationFailed); return; }
      state := state.(phase := VerifyingRequest);
      ok := Save(AwaitRequest, state);
      if !ok { state, ok := Rollback(state, StatePersistFailed); }
    }

    /** Verification through the public name; only now does the active node change. */
    method ConfirmRequest(op: Operation, mode: Mode) returns (state: Operation, ok: bool)
      requires Valid() && Driving(op) && op.phase == VerifyingRequest && op.previous != "" && op.desired != ""
      requires view.known == Some(op.desired) && view.recursive == Some(op.desired)
      requires view.begins > 0 && view.forwards == 1 && view.backs == 0 && mode == CallMode(view.call) && mode != NoMode
      requires view.call.AdminSwitch? || view.call == SchedulerPass
      modifies this
      ensures Valid() && old(log) <= log && clock >= old(clock)
      ensures Continues(old(view)) && view.forwards == old(view).forwards && view.backs <= 1
      ensures view.store.Op().phase.Verified?
              || (RollbackPhase(view.store.Op().phase) && SameTarget(op, view.store.Op()))
      ensures ok ==> Driving(state) && state.phase == Verified && state.requestVerified && state.mode == mode
      ensures ok ==> state.active == state.requested == op.requested && state.desired == op.desired && view.backs == 0
      ensures ok ==> state.prior == op.prior
    {
      hide Conforms, Replay, Coherent, Others, Switcher.Tracking, Switcher.Valid;
      var observed, answered := WaitPublicRequest(op.requested);
      state := op.(observed := observed);
      if answered {
        state, ok := Complete(state, mode);
      } else {
        state, ok := Rollback(state, PublicRequestFailed);
      }
    }

    method Complete(op: Operation, mode: Mode) returns (state: Operation, ok: bool)
      requires Valid() && view.drives && view.store.Op().phase == VerifyingRequest && SameTarget(view.store.Op(), op)
      requires op == view.store.Op().(observed := op.observed) && op.id <= clock
      requires view.known == Some(op.desired) && view.recursive == Some(op.desired) && view.public == Some(op.requested)
      requires mode == CallMode(view.call) && mode != NoMode && (view.call.AdminSwitch? || view.call == SchedulerPass)
      requires view.backs == 0
      modifies this
      ensures Valid() && old(log) <= log && clock >= old(clock)
      ensures Continues(old(view)) && view.forwards == old(view).forwards && view.backs == 0
      ensures view.store.Op().phase.Verified?
              || (RollbackPhase(view.store.Op().phase) && SameTarget(op, view.store.Op()))
      ensures ok ==> Driving(state) && state.phase == Verified && state.requestVerified && state.mode == mode
      ensures ok ==>
                && state.active == state.requested == op.requested
                && state.desired == op.desired && state.prior == op.prior
    {
      hide Conforms, Replay, Coherent, Others, Switcher.Tracking, Switcher.Valid;
      var now := Now();
      state := op.(requestVerified := true, mode := mode, active := op.requested, phase := Verified,
                   completedAt := now / NANOS, error := NoCode);
      ok := Save(Verify, state);
    }

    /** What a switch that does not succeed may leave behind. */
    ghost predicate Unswitched(was: View)
      reads this
    {
      var op, before := view.store.Op(), was.store.Op();
      || view.store.current == was.store.current
      || (&& op.id !in was.store.history && Others(view.store.history, op.id) == Others(was.store.history, op.id)
          && op.prior == (if CanBePrior(before) then before.id else 0)
          && (op.phase != Verified ==> op.active == before.active && op.mode == before.mode)
          && (op.phase == Failed && SafePreDNSFailure(op.error) ==> view.forwards == 0 && view.backs == 0))
    }

    /** A begun operation, to its end. */
    method Carry(op: Operation, mode: Mode) returns (state: Operation, ok: bool)
      requires Valid() && Driving(op) && op.phase == Preparing && op.source == "" && !op.requestVerified
      requires view.forwards == 0 && view.backs == 0 && mode == CallMode(view.call) && mode != NoMode
      requires view.begins > 0
      requires view.call.AdminSwitch? || view.call == SchedulerPass
      modifies this
      ensures Valid() && old(log) <= log && clock >= old(clock)
      ensures Continues(old(view)) && view.forwards <= 1 && view.backs <= 1
      ensures !view.store.Op().phase.Verified? ==>
                view.store.Op().active == op.active && view.store.Op().mode == op.mode
      ensures view.store.Op().phase.Failed? && SafePreDNSFailure(view.store.Op().error) ==>
                view.forwards == 0 && view.backs == 0
      ensures ok ==> Driving(state) && state.phase == Verified && state.requestVerified && state.mode == mode
      ensures ok ==> state.active == state.requested == op.requested && state.prior == op.prior
      ensures ok ==> view.forwards == 1 && view.backs == 0
    {
      hide Conforms, Replay, Coherent, Others, Switcher.Tracking, Switcher.Valid;
      state, ok := Prepare(op);
      if !ok { return; }
      state, ok := Submit(state);
      if !ok { return; }
      state, ok := ConfirmRecursive(state);
      if !ok { return; }
      state, ok := ConfirmRequest(state, mode);
    }

    method SwitchToLocked(node: string, trigger: Trigger, mode: Mode) returns (state: Operation, ok: bool)
      requires Valid() && mode == CallMode(view.call) && mode != NoMode
      requires !InFlight(view.store.Op().phase) ==> forall at :: at > clock ==> MayRequest(view, node, trigger, at)
      modifies this
      ensures Valid() && old(log) <= log && clock >= old(clock)
      ensures view.call == old(view.call) && view.judged == old(view.judged)
      ensures InFlight(old(view.store.Op().phase)) ==> !ok && log == old(log) && view == old(view)
      ensures view.forwards <= old(view.forwards) + 1 && view.backs <= old(view.backs) + 1
      ensures view.begins > 0 || view.store.current == old(view).store.current
      ensures ok ==> view.forwards == 1 && view.backs == 0
      ensures ok ==> state.prior == if CanBePrior(old(view).store.Op()) then old(view).store.Op().id else 0
      ensures ok ==> Driving(state) && state.phase == Verified && state.requestVerified
      ensures ok ==> state.active == state.requested == node && state.mode == mode && state.id !in old(store.history)
      ensures !ok ==> Unswitched(old(view))
    {
      hide Conforms, Replay, Others, Switcher.Tracking;
      var previous := Status();
      state := previous;
      if InFlight(previous.phase) { return state, false; }
      state, ok := Open(node, trigger, previous);
      if !ok { return; }
      state, ok := Carry(state, mode);
    }

    /** The new operation, persisted before anything is checked. */
    method Open(node: string, trigger: Trigger, previous: Operation) returns (state: Operation, ok: bool)
      requires Valid() && previous == view.store.Op() && !InFlight(previous.phase)
      requires forall at :: at > clock ==> MayRequest(view, node, trigger, at)
      modifies this
      ensures Valid() && old(log) <= log && clock > old(clock) && state.id == clock && state.id !in old(store.history)
      ensures state == ZERO.(id := state.id, phase := Preparing, trigger := trigger, mode := previous.mode,
                             active := previous.active, requested := node, record := record,
                             prior := if CanBePrior(previous) then previous.id else 0)
      ensures MayRequest(old(view), node, trigger, state.id) && Unswitched(old(view))
      ensures view.call == old(view.call) && view.judged == old(view.judged)
      ensures view.forwards == old(view.forwards) && view.backs == old(view.backs)
      ensures view.begins > 0 || view.store.current == old(view).store.current
      ensures Others(view.store.history, state.id) == Others(old(view.store.history), state.id)
      ensures ok ==> Driving(state) && view.begins > 0
    {
      hide Conforms, Replay, Others, Switcher.Tracking;
      var now := Now();
      state := ZERO.(id := now, phase := Preparing, trigger := trigger, mode := previous.mode,
                     active := previous.active, requested := node, record := record,
                     prior := if CanBePrior(previous) then previous.id else 0);
      ok := Save(Begin, state);
    }

    /** A fresh reading of the node an automatic rollback would return to. */
    method JudgePredecessor(op: Operation) returns (usable: bool)
      requires Valid()
      requires op.trigger == AutomaticHealth ==> view.begins > 0 && view.store.Op().trigger == AutomaticHealth
      modifies `clock, `log, `view
      ensures Valid() && old(log) <= log && clock >= old(clock)
      ensures op.trigger == AutomaticHealth ==> view == Next(old(view), SawNode(op.active, usable))
      ensures op.trigger != AutomaticHealth ==> usable && view == old(view)
    {
      hide Conforms, Replay, Coherent, Switcher.Tracking;
      usable := true;
      if op.trigger == AutomaticHealth {
        var node := GetProxyNode(op.active);
        usable := false;
        if node.Some? { usable := Usable(node.value); }
        Observe(SawNode(op.active, usable));
      }
    }

    ghost predicate RollbackPhase(phase: Phase) {
      AfterSwap(phase) || phase.RollingBack? || phase.RolledBack? || phase.RollbackFailed? || phase.FailoverPending?
    }

    /** Puts the previous address back, unless somebody else owns the record by now or an
        automatic operation would return to a dead node. */
    method Rollback(op: Operation, code: Code) returns (state: Operation, ok: bool)
      requires Valid() && view.drives && AfterSwap(view.store.Op().phase) && SameTarget(view.store.Op(), op)
      requires view.begins > 0 && view.forwards == 1 && view.backs == 0 && op.id <= clock && op.previous != ""
      requires op.desired != ""
      modifies this
      ensures Valid() && old(log) <= log && clock >= old(clock) && !ok
      ensures Continues(old(view)) && SameTarget(op, view.store.Op())
      ensures view.forwards == old(view.forwards) && view.backs <= 1 && RollbackPhase(view.store.Op().phase)
    {
      hide Conforms, Replay, Coherent, Others, Switcher.Tracking, Switcher.Valid;
      ok := false;
      var usable := JudgePredecessor(op);
      if usable { state := Unwind(op, code); } else { state := LeaveToFailover(op, code); }
    }

    method LeaveToFailover(op: Operation, code: Code) returns (state: Operation)
      requires Valid() && view.drives && AfterSwap(view.store.Op().phase) && SameTarget(view.store.Op(), op)
      requires op.trigger == AutomaticHealth && view.predecessor == Some((op.active, false))
      requires view.forwards == 1 && view.backs == 0 && op.id <= clock
      modifies this
      ensures Valid() && old(log) <= log && clock >= old(clock)
      ensures Continues(old(view)) && SameTarget(op, view.store.Op())
      ensures view.forwards == old(view.forwards) && view.backs <= 1 && RollbackPhase(view.store.Op().phase)
    {
      hide Conforms, Replay, Coherent, Others, Switcher.Tracking, Switcher.Valid;
      var now := Now();
      state := op.(phase := FailoverPending, error := code, completedAt := now / NANOS);
      var _ := Save(Defer, state);
    }

    method Unwind(op: Operation, code: Code) returns (state: Operation)
      requires Valid() && view.drives && AfterSwap(view.store.Op().phase)
      requires SameTarget(view.store.Op(), op) && PredecessorUsable(view, op)
      requires view.forwards == 1 && view.backs == 0 && op.id <= clock && op.previous != "" && op.desired != ""
      modifies this
      ensures Valid() && old(log) <= log && clock >= old(clock)
      ensures Continues(old(view)) && SameTarget(op, view.store.Op())
      ensures view.forwards == old(view.forwards) && view.backs <= 1 && RollbackPhase(view.store.Op().phase)
    {
      hide Conforms, Replay, Coherent, Others, Switcher.Tracking, Switcher.Valid;
      state := op.(rollbackAttempted := true, phase := RollingBack, error := code);
      var _ := Save(StartRollback, state);
      var observed, verified := Revert(state);
      state := Conclude(state, observed, verified);
    }

    method Conclude(op: Operation, observed: string, verified: bool) returns (state: Operation)
      requires Valid() && view.drives && (AfterSwap(view.store.Op().phase) || view.store.Op().phase == RollingBack)
      requires SameTarget(view.store.Op(), op) && PredecessorUsable(view, op) && op.rollbackAttempted
      requires op.id <= clock && view.forwards == 1
      requires verified ==> op.active != "" && view.known == view.recursive == Some(op.previous)
      requires verified ==> view.public == Some(op.active)
      modifies this
      ensures Valid() && old(log) <= log && clock >= old(clock)
      ensures Continues(old(view)) && SameTarget(op, view.store.Op())
      ensures view == old(view).(store := view.store) && RollbackPhase(view.store.Op().phase)
    {
      hide Conforms, Replay, Coherent, Others, Switcher.Tracking, Switcher.Valid;
      var now := Now();
      state := op.(observed := observed, rollbackVerified := verified, completedAt := now / NANOS,
                   phase := if verified then RolledBack else RollbackFailed);
      var _ := Save(EndRollback, state);
    }

    /** The provider and verification part of a rollback. */
    method Revert(op: Operation) returns (observed: string, verified: bool)
      requires Valid() && view.drives && (AfterSwap(view.store.Op().phase) || view.store.Op().phase == RollingBack)
      requires SameTarget(view.store.Op(), op) && PredecessorUsable(view, op)
      requires view.backs == 0 && op.previous != "" && op.desired != ""
      modifies `store, `log, `view
      ensures Valid() && old(log) <= log
      ensures view.store.(dns := "") == old(view.store).(dns := "") && view.drives && view.call == old(view.call)
      ensures view.predecessor == old(view.predecessor) && view.judged == old(view.judged)
      ensures view.begins == old(view.begins)
      ensures view.forwards == old(view.forwards) && view.backs <= 1
      ensures verified ==> op.active != "" && view.known == Some(op.previous)
      ensures verified ==> view.recursive == Some(op.previous) && view.public == Some(op.active)
    {
      hide Conforms, Replay, Coherent, Others, Switcher.Tracking, Switcher.Valid;
      observed, verified := op.observed, false;
      var live := ExactRecord();
      if live.None? || (live.value != op.desired && live.value != op.previous) { return; }
      if live.value == op.desired {
        var reverted := ReplaceExactA(Back, op.desired, op.previous);
        if !reverted { return; }
      }
      observed, verified := ConfirmRevert(op);
    }

    method ConfirmRevert(op: Operation) returns (observed: string, verified: bool)
      requires Valid()
      modifies `store, `log, `view
      ensures Valid() && old(log) <= log
      ensures view == old(view).(store := view.store, known := view.known,
                                 recursive := view.recursive, public := view.public)
      ensures view.store.(dns := "") == old(view.store).(dns := "")
      ensures verified ==> op.active != "" && view.known == Some(op.previous)
      ensures verified ==> view.recursive == Some(op.previous) && view.public == Some(op.active)
    {
      hide Conforms, Replay, Coherent, Others, Switcher.Tracking, Switcher.Valid;
      observed, verified := op.observed, false;
      var _, converged := WaitRecursive(op.previous);
      if !converged { return; }
      var readback := ExactRecord();
      if readback.None? || readback.value != op.previous || op.active == "" { return; }
      observed, verified := VerifyPublicRequest(op.active);
    }

    // ---------- entry points ----------

    method Enter(call: Call)
      requires Valid()
      modifies `log, `view
      ensures Valid() && log == old(log) + [Event.Enter(call)] && view == Next(old(view), Event.Enter(call))
    {
      Observe(Event.Enter(call));
    }

    /** An administrator's switch. */
    method SwitchTo(node: string, mode: Mode) returns (state: Operation, ok: bool)
      requires Valid() && mode != NoMode && node != ""
      modifies this
      ensures Valid() && old(log) + [Event.Enter(AdminSwitch(node, mode))] <= log
      ensures InFlight(old(view).store.Op().phase) ==> !ok && view.store == old(view).store
      ensures view.forwards <= 1 && view.backs <= 1
      ensures ok ==> view.store.current == Some(state) && state.phase == Verified && state.requestVerified
      ensures ok ==> state.active == state.requested == node && state.mode == mode && state.id !in old(store.history)
      ensures !ok ==> Unswitched(old(view))
    {
      hide Conforms, Replay, Coherent, Others, Switcher.Tracking, Switcher.Valid;
      Enter(AdminSwitch(node, mode));
      state, ok := SwitchToLocked(node, if mode == Fixed then AdminFixed else AdminManual, mode);
    }

    /** Read-only closing of an operation whose original address and node still serve. */
    method ConfirmPreviousIngress(id: nat) returns (state: Operation, ok: bool)
      requires Valid()
      modifies this
      ensures Valid() && old(log) + [Event.Enter(ConfirmPrevious(id))] <= log
      ensures view.forwards == 0 && view.backs == 0
      ensures SameTarget(old(view).store.Op(), view.store.Op())
      ensures ok ==> view.store.current == Some(state) && state.phase == RolledBack && state.requestVerified
      ensures ok ==> InFlight(old(view).store.Op().phase) && id != 0 && state.id == id && state.previous != ""
      ensures ok ==> view.known == view.recursive == Some(state.previous) && view.public == Some(state.active)
    {
      hide Conforms, Replay, Others, Switcher.Tracking;
      Enter(ConfirmPrevious(id));
      state := Status();
      ok := false;
      if id == 0 || state.id != id || !InFlight(state.phase) || state.previous == "" || state.active == "" { return; }
      state, ok := OriginalServes(state);
      if !ok { return; }
      var now := Now();
      state := state.(rollbackAttempted := true, rollbackVerified := true, requestVerified := true,
                      phase := RolledBack, completedAt := now / NANOS, error := NoCode);
      ok := Save(ConfirmRollback, state);
    }

    method OriginalServes(op: Operation) returns (state: Operation, ok: bool)
      requires Valid()
      modifies `store, `log, `view
      ensures Valid() && old(log) <= log && OnlyObserved(old(view))
      ensures state == op.(provider := state.provider, recursive := state.recursive, observed := state.observed)
      ensures ok ==>
                view.known == view.recursive == Some(op.previous) && view.public == Some(op.active) && view.ipv4Only
    {
      hide Conforms, Replay, Coherent, Others, Switcher.Tracking, Switcher.Valid;
      state, ok := op, false;
      var ipv4 := RejectIPv6();
      if !ipv4 { return; }
      var live := ExactRecord();
      if live != Some(op.previous) { return; }
      var recursive, converged := WaitRecursive(op.previous);
      state := state.(provider := op.previous, recursive := recursive);
      if !converged { return; }
      var observed, answered := VerifyPublicRequest(op.active);
      state, ok := state.(observed := observed), answered;
    }

    /** Everything a call learned or changed, except what an observation of the world may touch. */
    ghost predicate OnlyObserved(was: View)
      reads this
    {
      && view.store.(dns := "") == was.store.(dns := "")
      && view.drives == was.drives && view.call == was.call && view.judged == was.judged
      && view.begins == was.begins
      && view.forwards == was.forwards && view.backs == was.backs
    }

    /** The prior verified operation, if it provably still serves (or its node is dead anyway). */
    method VerifiedBeforeFailure(failed: Operation) returns (verified: Operation, ok: bool)
      requires Valid() && failed == view.store.Op() && failed.phase == Failed && failed.prior != 0
      requires SafePreDNSFailure(failed.error) && view.call == SchedulerPass
      requires view.forwards == 0 && view.backs == 0 && (view.judged.Some? ==> view.begins > 0)
      modifies this
      ensures Valid() && old(log) <= log && clock >= old(clock) && OnlyObserved(old(view))
      ensures ok ==> MayRestore(view, verified) && verified.record == record
    {
      hide Conforms, Replay, Coherent, Others, Switcher.Tracking, Switcher.Valid;
      verified, ok := ZERO, false;
      var readable: bool := *;
      if !readable || failed.prior !in store.history { return; }
      verified := store.history[failed.prior];
      HistoryEntry(failed.prior);
      if !CanBePrior(verified) || verified.active != failed.active
         || verified.record != record || verified.mode != failed.mode { return; }
      ok := LiveMatches(verified);
      if ok { ok := StillServes(failed.trigger, verified); }
    }

    /** Provider and recursive DNS both show the address the operation was verified with. */
    method LiveMatches(op: Operation) returns (ok: bool)
      requires Valid()
      modifies `store, `log, `view
      ensures Valid() && old(log) <= log && OnlyObserved(old(view))
      ensures ok ==> view.known == view.recursive == Some(op.desired) && view.ipv4Only
    {
      hide Conforms, Replay, Coherent, Others, Switcher.Tracking, Switcher.Valid;
      ok := RejectIPv6();
      if !ok { return; }
      var live := ExactRecord();
      if live != Some(op.desired) { return false; }
      var answers := LookupHost();
      ok := AnswersMatch(answers, op.desired);
      if ok { Observe(SawRecursive(op.desired)); }
    }

    method StillServes(trigger: Trigger, verified: Operation) returns (ok: bool)
      requires Valid() && view.store.Op().trigger == trigger && (view.judged.Some? ==> view.begins > 0)
      modifies `clock, `log, `view
      ensures Valid() && old(log) <= log && clock >= old(clock) && OnlyObserved(old(view))
      ensures view.store == old(view).store && view.known == old(view).known
      ensures view.recursive == old(view).recursive && view.ipv4Only == old(view).ipv4Only
      ensures ok ==> view.public == Some(verified.active)
                     || (trigger == AutomaticHealth && view.predecessor == Some((verified.active, false)))
    {
      hide Conforms, Replay, Coherent, Others, Switcher.Tracking, Switcher.Valid;
      if trigger == AutomaticHealth {
        var node := GetProxyNode(verified.active);
        if node.None? { return false; }
        var usable := Usable(node.value);
        Observe(SawNode(verified.active, usable));
        if !usable { return true; }
      }
      var _, answered := VerifyPublicRequest(verified.active);
      ok := answered;
    }

    // ---------- the scheduler ----------

    /** A candidate that passes every check, or the reason to look at the next one. */
    method Candidate(n: ProxyNode, active: string) returns (address: string, ok: bool)
      requires Valid()
      modifies `clock, `log, `view
      ensures Valid() && old(log) <= log && clock >= old(clock)
      ensures view == old(view).(vetted := view.vetted, probed := view.probed, media := view.media)
      ensures ok ==> n.id != active && address != "" && view.vetted == Some(n.id)
      ensures ok ==> view.probed == Some((n.id, address)) && view.media == Some(n.id)
    {
      hide Conforms, Replay, Coherent, Others, Switcher.Tracking, Switcher.Valid;
      address, ok := "", false;
      var now := Now();
      if n.id == active || !Eligible(n, now / NANOS) || OverThreshold(n) { return; }
      Observe(Vetted(n.id));
      var resolved, reached := Preflight(n);
      if resolved.None? || !reached { return; }
      address := resolved.value;
      ok := RuntimeMediaPreflight(n);
    }

    /** Moves an interrupted operation onto a vetted candidate: intent, swap, verification. */
    method ResumeOn(op: Operation, live: string, node: string, address: string) returns (ok: bool)
      requires Valid() && op == view.store.Op() && op.id <= clock
      requires view.call == SchedulerPass && !view.drives && Resumable(op)
      requires view.predecessor == Some((op.active, false)) && view.known == Some(live) && Named(op, live) && live != ""
      requires node != op.active && node != "" && address != "" && view.ipv4Only
      requires view.forwards == 0 && view.backs == 0
      requires view.vetted == Some(node) && view.probed == Some((node, address)) && view.media == Some(node)
      modifies this
      ensures Valid() && old(log) <= log && clock >= old(clock)
      ensures SameOperation(op, view.store.Op()) && view.call == SchedulerPass && view.forwards <= 1 && view.backs == 0
      ensures ok ==> view.store.Op().phase == Verified && view.store.Op().active == node
    {
      hide Conforms, Replay, Coherent, Others, Switcher.Tracking, Switcher.Valid;
      var state := op.(source := live, requested := node, desired := address,
                       phase := FailoverPending, error := NoCode, requestVerified := false);
      ok := Save(PlanResume, state);
      if !ok { return; }
      ok := SwapResume(state);
      if !ok { return; }
      state := state.(provider := address);
      ok := Note(state, NoCode);
      if !ok { return; }
      ok := FinishResume(state);
    }

    /** Writes down how far a resumed operation has come. */
    method Note(op: Operation, code: Code) returns (saved: bool)
      requires Valid() && view.drives && view.call == SchedulerPass && view.store.Op().phase == FailoverPending
      requires SameTarget(view.store.Op(), op) && op.phase == FailoverPending && op.id <= clock
      modifies this
      ensures Valid() && old(log) <= log && clock == old(clock)
      ensures view == old(view).(store := view.store) && SameTarget(op, view.store.Op())
      ensures view.store.Op().phase == FailoverPending
      ensures saved ==> view.store.current == Some(op.(error := code))
    {
      hide Conforms, Replay, Coherent, Others, Switcher.Tracking, Switcher.Valid;
      saved := Save(NoteResume, op.(error := code));
    }

    /** Swaps only when the live record is not already the wanted one. */
    method SwapResume(op: Operation) returns (ok: bool)
      requires Valid() && Driving(op) && op.phase == FailoverPending && view.call == SchedulerPass
      requires view.known == Some(op.source) && op.source != "" && op.desired != "" && view.forwards == 0
      requires view.backs == 0
      modifies this
      ensures Valid() && old(log) <= log && clock == old(clock)
      ensures view.drives && view.call == SchedulerPass && view.forwards <= 1 && view.backs == 0
      ensures SameTarget(op, view.store.Op()) && view.store.Op().phase == FailoverPending
      ensures ok ==> view.known == Some(op.desired)
    {
      hide Conforms, Replay, Coherent, Others, Switcher.Tracking, Switcher.Valid;
      ok := true;
      if op.source != op.desired {
        ok := ReplaceExactA(Resume, op.source, op.desired);
        if !ok { var _ := Note(op, ProviderUpdateUnverified); }
      }
    }

    method FinishResume(op: Operation) returns (ok: bool)
      requires Valid() && Driving(op) && op.phase == FailoverPending && view.call == SchedulerPass
      requires view.known == Some(op.desired) && view.backs == 0 && op.mode == Preferred
      modifies this
      ensures Valid() && old(log) <= log && clock >= old(clock)
      ensures SameOperation(op, view.store.Op()) && view.call == SchedulerPass
      ensures view.forwards == old(view).forwards && view.backs == 0
      ensures ok ==> view.store.Op().phase == Verified && view.store.Op().active == op.requested
    {
      hide Conforms, Replay, Coherent, Others, Switcher.Tracking, Switcher.Valid;
      var recursive, converged := WaitRecursive(op.desired);
      var state := op.(recursive := recursive);
      if !converged {
        var _ := Note(state, RecursiveVerificationFailed);
        return false;
      }
      ok := AnswerResume(state);
    }

    method AnswerResume(op: Operation) returns (ok: bool)
      requires Valid() && view.drives && view.store.Op().phase == FailoverPending && SameTarget(view.store.Op(), op)
      requires op.phase == FailoverPending && view.call == SchedulerPass && op.mode == Preferred && op.id <= clock
      requires view.known == view.recursive == Some(op.desired) && view.backs == 0
      modifies this
      ensures Valid() && old(log) <= log && clock >= old(clock)
      ensures SameOperation(op, view.store.Op()) && view.call == SchedulerPass
      ensures view.forwards == old(view).forwards && view.backs == 0
      ensures ok ==> view.store.Op().phase == Verified && view.store.Op().active == op.requested
    {
      hide Conforms, Replay, Coherent, Others, Switcher.Tracking, Switcher.Valid;
      var observed, answered := WaitPublicRequest(op.requested);
      var state := op.(observed := observed);
      if !answered {
        var _ := Note(state, PublicRequestFailed);
        return false;
      }
      ok := CompleteResume(state);
    }

    method CompleteResume(op: Operation) returns (ok: bool)
      requires Valid() && view.drives && view.store.Op().phase == FailoverPending && SameTarget(view.store.Op(), op)
      requires view.call == SchedulerPass && op.mode == Preferred && op.id <= clock
      requires view.known == view.recursive == Some(op.desired) && view.public == Some(op.requested) && view.backs == 0
      modifies this
      ensures Valid() && old(log) <= log && clock >= old(clock)
      ensures view == old(view).(store := view.store) && SameOperation(op, view.store.Op())
      ensures ok ==> view.store.Op().phase == Verified && view.store.Op().active == op.requested
    {
      hide Conforms, Replay, Coherent, Others, Switcher.Tracking, Switcher.Valid;
      var now := Now();
      var state := op.(active := op.requested, mode := Preferred, phase := Verified,
                       requestVerified := true, error := NoCode, completedAt := now / NANOS);
      ok := Save(Verify, state);
    }

    /** Resumes only a known automatic health transaction, never a manual one and never over
        an address this operation did not name. */
    method RecoverAutomaticHealthLocked(op: Operation) returns (outcome: Outcome)
      requires Valid() && (op == view.store.Op() || op == UNREADABLE) && InFlight(op.phase)
      requires view.call == SchedulerPass && !view.drives && view.judged.None? && view.forwards == 0 && view.backs == 0
      modifies this
      ensures Valid() && old(log) <= log && view.call == SchedulerPass
      ensures view.forwards <= 1 && view.backs == 0 && SameOperation(old(view).store.Op(), view.store.Op())
      ensures !Resumable(op) ==> outcome == Refused && log == old(log) && view == old(view)
      ensures outcome.Done? ==> view.store.Op().phase == Verified
      ensures outcome.NoCandidate? ==> view.forwards == 0 && SameTarget(op, view.store.Op())
    {
      hide Conforms, Replay, Coherent, Others, Switcher.Tracking, Switcher.Valid;
      if op.trigger != AutomaticHealth || op.mode != Preferred || op.previous == "" || op.desired == ""
         || op.record != record { return Refused; }
      var dead := PredecessorDead(op.active);
      if !dead { return Refused; }
      outcome := ResumeFrom(op);
    }

    /** The live record must still be one the operation names. */
    method ResumeFrom(op: Operation) returns (outcome: Outcome)
      requires Valid() && (op == view.store.Op() || op == UNREADABLE) && InFlight(op.phase) && Resumable(op)
      requires view.call == SchedulerPass && !view.drives && view.forwards == 0 && view.backs == 0
      requires view.predecessor == Some((op.active, false))
      modifies this
      ensures Valid() && old(log) <= log && view.call == SchedulerPass
      ensures view.forwards <= 1 && view.backs == 0 && SameOperation(old(view).store.Op(), view.store.Op())
      ensures outcome.Done? ==> view.store.Op().phase == Verified
      ensures outcome.NoCandidate? ==> view.forwards == 0 && SameTarget(op, view.store.Op())
    {
      hide Conforms, Replay, Coherent, Others, Switcher.Tracking, Switcher.Valid;
      var ipv4 := RejectIPv6();
      if !ipv4 { return Refused; }
      var live := ExactRecord();
      if live.None? || !Named(op, live.value) { return Refused; }
      Recorded();
      outcome := TryCandidates(op, live.value);
    }

    method PredecessorDead(id: string) returns (dead: bool)
      requires Valid() && view.judged.None?
      modifies `clock, `log, `view
      ensures Valid() && old(log) <= log && clock >= old(clock)
      ensures view == old(view).(predecessor := view.predecessor)
      ensures dead ==> view.predecessor == Some((id, false))
    {
      hide Conforms, Replay, Coherent, Others, Switcher.Tracking, Switcher.Valid;
      var node := GetProxyNode(id);
      if node.None? { return false; }
      var usable := Usable(node.value);
      Observe(SawNode(id, usable));
      dead := !usable;
    }

    method TryCandidates(op: Operation, live: string) returns (outcome: Outcome)
      requires Valid() && op == view.store.Op() && op.id <= clock
      requires view.call == SchedulerPass && !view.drives && Resumable(op) && view.ipv4Only
      requires view.predecessor == Some((op.active, false)) && view.known == Some(live) && Named(op, live) && live != ""
      requires view.forwards == 0 && view.backs == 0
      modifies this
      ensures Valid() && old(log) <= log && view.call == SchedulerPass
      ensures view.forwards <= 1 && view.backs == 0 && SameOperation(op, view.store.Op())
      ensures outcome.Done? ==> view.store.Op().phase == Verified
      ensures outcome.NoCandidate? ==> view.forwards == 0 && SameTarget(op, view.store.Op())
    {
      hide Conforms, Replay, Coherent, Others, Switcher.Tracking, Switcher.Valid;
      var nodes := ListProxyNodes();
      if nodes.None? { return Refused; }
      for i := 0 to |nodes.value|
        invariant Valid() && old(log) <= log && clock >= old(clock)
        invariant view == old(view).(vetted := view.vetted, probed := view.probed, media := view.media)
      {
        var address, ok := Candidate(nodes.value[i], op.active);
        if ok {
          var moved := ResumeOn(op, live, nodes.value[i].id, address);
          return if moved then Done else Refused;
        }
      }
      var saved := Save(FindNoCandidate, op.(phase := FailoverPending, error := NoEligibleCandidate));
      outcome := if saved then NoCandidate else Refused;
    }

    /** One scheduler pass. */
    method Reconcile() returns (outcome: Outcome)
      requires Valid()
      modifies this
      ensures Valid() && old(log) + [Event.Enter(SchedulerPass)] <= log
      ensures view.forwards <= 1 && view.backs <= 1
      ensures (outcome.NoCandidate? && old(view).store.Op().phase == Verified
               && old(view).store.Op().mode == Preferred) ==>
                view.store.current == old(view).store.current && view.forwards == 0 && view.backs == 0
    {
      hide Conforms, Replay, Coherent, Others, Switcher.Tracking, Switcher.Valid;
      Enter(SchedulerPass);
      var state := Status();
      if InFlight(state.phase) { outcome := RecoverAutomaticHealthLocked(state); return; }
      var ok := true;
      if state.phase == Failed && state.prior != 0 && SafePreDNSFailure(state.error) {
        state, ok := RestorePrior(state);
        if !ok { return Refused; }
      }
      if state.phase == Verified && state.mode == Fixed && state.trigger == AdminManual && state.requestVerified {
        state, ok := UpgradeManual(state);
        if !ok { return Refused; }
      }
      if state.mode == Fixed { return Done; }
      if state.phase != Verified && state.phase != RolledBack { return Refused; }
      Recorded();
      outcome := Decide(state);
    }

    method RestorePrior(failed: Operation) returns (state: Operation, ok: bool)
      requires Valid() && failed == view.store.Op() && failed.phase == Failed && failed.prior != 0
      requires SafePreDNSFailure(failed.error) && view.call == SchedulerPass
      requires view.forwards == 0 && view.backs == 0 && (view.judged.Some? ==> view.begins > 0)
      modifies this
      ensures Valid() && old(log) <= log && clock >= old(clock)
      ensures view.call == SchedulerPass && view.forwards == 0 && view.backs == 0 && view.judged == old(view).judged
      ensures view.begins == old(view).begins
      ensures ok ==> view.store.current == Some(state) && CanBePrior(state)
      ensures ok ==> state.id == failed.prior && state.id in old(view).store.history
      ensures ok ==> old(view).store.history[state.id] == state
    {
      hide Conforms, Replay, Coherent, Others, Switcher.Tracking, Switcher.Valid;
      state, ok := VerifiedBeforeFailure(failed);
      if ok { ok := PutCurrent(state); }
    }

    /** Old records of manual switches were written as fixed. */
    method UpgradeManual(op: Operation) returns (state: Operation, ok: bool)
      requires Valid() && view.store.current == Some(op) && view.call == SchedulerPass
      requires op.phase == Verified && op.mode == Fixed && op.trigger == AdminManual && op.requestVerified
      modifies this
      ensures Valid() && old(log) <= log && clock == old(clock)
      ensures view.call == SchedulerPass && view.forwards == old(view).forwards && view.backs == old(view).backs
      ensures ok ==> view.store.current == Some(state) && state == op.(mode := Preferred)
    {
      hide Conforms, Replay, Others, Switcher.Tracking;
      state := op.(mode := Preferred);
      ok := Save(Upgrade, state);
    }

    method FindNode(nodes: seq<ProxyNode>, id: string) returns (node: Option<ProxyNode>)
      ensures node.Some? ==> node.value in nodes && node.value.id == id
      ensures node.None? ==> forall n <- nodes :: n.id != id
    {
      for i := 0 to |nodes|
        invariant forall k :: 0 <= k < i ==> nodes[k].id != id
      {
        if nodes[i].id == id { return Some(nodes[i]); }
      }
      node := None;
    }

    /** Whether the active node must be left, and for which reason. */
    method Decide(state: Operation) returns (outcome: Outcome)
      requires Valid() && view.store.current == Some(state) && state.mode != Fixed
      requires (state.phase == Verified || state.phase == RolledBack) && view.call == SchedulerPass
      requires view.forwards == 0 && view.backs == 0
      modifies this
      ensures Valid() && old(log) <= log && view.forwards <= 1 && view.backs <= 1
      ensures outcome.NoCandidate? && CanBePrior(state) ==>
                view.store.current == Some(state) && view.forwards == 0 && view.backs == 0
    {
      hide Conforms, Replay, Coherent, Others, Switcher.Tracking, Switcher.Valid;
      var nodes := ListProxyNodes();
      if nodes.None? { return Refused; }
      var active := FindNode(nodes.value, state.active);
      var usable := Usable(active);
      Observe(Judged(state.active, usable));
      var now := Now();
      if usable && state.phase == Verified && now - state.completedAt * NANOS < HOUR { return Done; }
      if usable && !OverThreshold(active.value) { return Done; }
      outcome := Leave(state, nodes.value, if usable then AutomaticThreshold else AutomaticHealth);
    }

    /** Tries the candidates in order; one that fails before DNS is skipped after the prior
        verified operation has been restored. */
    method Leave(state: Operation, nodes: seq<ProxyNode>, trigger: Trigger) returns (outcome: Outcome)
      requires Valid() && view.store.current == Some(state) && state.mode != Fixed
      requires (state.phase == Verified || state.phase == RolledBack) && view.call == SchedulerPass
      requires view.forwards == 0 && view.backs == 0 && forall n <- nodes :: n.id != ""
      requires view.begins == 0 ==> view.predecessor.None?
      requires trigger == AutomaticHealth || trigger == AutomaticThreshold
      requires view.judged == Some((state.active, trigger == AutomaticThreshold))
      requires trigger == AutomaticThreshold && state.phase == Verified ==> clock - state.completedAt * NANOS >= HOUR
      modifies this
      ensures Valid() && old(log) <= log && view.forwards <= 1 && view.backs <= 1
      ensures outcome.Done? ==>
                && view.store.Op().phase == Verified && view.forwards == 1 && view.backs == 0
                && view.store.Op().prior == (if CanBePrior(state) then state.id else 0)
      ensures outcome.NoCandidate? ==> view.store.current == Some(state) && view.forwards == 0 && view.backs == 0
    {
      hide Conforms, Replay, Coherent, Others, Switcher.Tracking, Switcher.Valid;
      for i := 0 to |nodes|
        invariant Valid() && old(log) <= log && clock >= old(clock) && view.store.current == Some(state)
        invariant view.call == SchedulerPass && view.judged == old(view).judged
        invariant view.forwards == 0 && view.backs == 0 && (view.begins == 0 ==> view.predecessor.None?)
      {
        var n := nodes[i];
        var now := Now();
        if n.id == state.active || !Eligible(n, now / NANOS) || OverThreshold(n) { continue; }
        Recorded();
        ghost var before := view.store.history;
        var _, ok := SwitchToLocked(n.id, trigger, Preferred);
        if ok { return Done; }
        var failed := Status();
        if failed.phase != Failed || !SafePreDNSFailure(failed.error) || failed.prior == 0 { return Refused; }
        OthersKeep(before, view.store.history, failed.id, state.id);
        var _, restored := RestorePrior(failed);
        if !restored { return Refused; }
      }
      outcome := NoCandidate;
    }
  }
}
