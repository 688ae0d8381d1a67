/** The stateful failover controller: decisions, transitions and one-time DNS dry-runs, with
    writers that persist before anything is published in memory. */
module FailoverController {
  import opened Wrappers
  import opened FailoverPolicy

  datatype EventKind = NodeSwitched | ModeChanged | SwitchRejected | DNSSwitchFailed | DNSSwitchCommitted

  datatype Event = Event(id: nat, at: int, kind: EventKind, from: string, to: string, mode: Mode, success: bool)

  datatype Error =
    | Nil | UnknownNode | NodeNotEligible | Cooldown | SwitchRateLimited | InvalidMode | InvalidTraffic
    | AtomicPersistenceRequired | WriterFailed
    | ProviderUnavailable | ProviderModeDenied | RollbackMetadataRequired | RecordNotAllowed
    | DryRunRequired | DryRunExpired | DryRunMismatch | ProviderFailed

  // ---------- switch pacing ----------

  /** Node switches in a log of events at or after a moment. */
  function Switches(events: seq<Event>, since: int): nat {
    if events == [] then 0
    else
      var e := events[|events|-1];
      Switches(events[..|events|-1], since) + if e.kind == NodeSwitched && e.at >= since then 1 else 0
  }

  predicate Limited(events: seq<Event>, cfg: Config, now: int) {
    cfg.maxSwitches > 0 && Switches(events, now - cfg.window) >= cfg.maxSwitches
  }

  // ---------- what one operation does to a node or a state ----------

  function HealthFor(failures: nat, successes: nat, threshold: int): Health {
    if failures >= (if threshold <= 0 then DEFAULTS.failureThreshold else threshold) then HealthFailed
    else if failures > 0 then Degraded
    else if successes > 0 then Healthy else HealthUnknown
  }

  function RecordHealth(n: Node, success: bool, threshold: int): Node {
    var m := if success then n.(successes := n.successes + 1, failures := 0)
             else n.(failures := n.failures + 1, successes := 0);
    m.(health := HealthFor(m.failures, m.successes, threshold))
  }

  predicate InvalidSample(s: TrafficSample) {
    s.quality == Known
    && (s.inbound < 0 || s.outbound < 0 || s.total < 0 || s.quota < 0 || s.threshold < 0.0 || s.threshold > 100.0)
  }

  function NormalSample(s: TrafficSample, now: int): TrafficSample {
    var q := if s.quality == Quality.Unset then s.(quality := Unknown) else s;
    var t := if q.sampledAt.None? then q.(sampledAt := Some(now)) else q;
    if t.quality == Known && (t.inbound != 0 || t.outbound != 0) then t.(total := t.inbound + t.outbound) else t
  }

  function Advanced(s: State, primary: Node): State {
    if KnownCycle(primary.traffic).Some? then s.(cycleKey := KnownCycle(primary.traffic)) else s
  }

  function Switched(s: State, target: string, now: int, cooldown: int, primary: Node): State {
    Advanced(s.(active := target, desired := target, lastTransition := Some(now), lastEvaluation := Some(now),
                cooldownUntil := Some(now + cooldown)), primary)
  }

  /** A verified DNS change makes its node active; it sets no cooldown. */
  function DNSCommitted(s: State, node: string, now: int, primary: Node): State {
    var next := s.(observedDNS := node, active := node, desired := node, reconcile := false,
                   lastTransition := Some(now), lastEvaluation := Some(now));
    if node != s.active then Advanced(next, primary) else next
  }

  // ---------- the active node by the log ----------

  /** Events that say which node is active from now on. */
  predicate Moves(e: Event) {
    e.kind == NodeSwitched || e.kind == DNSSwitchCommitted
  }

  /** The active node after a log, of which the first `from` events came before the start. */
  function ActiveAfter(start: string, events: seq<Event>, from: nat): string {
    if events == [] || |events| <= from then start
    else if Moves(events[|events|-1]) then events[|events|-1].to
    else ActiveAfter(start, events[..|events|-1], from)
  }

  lemma ActiveAppend(start: string, events: seq<Event>, from: nat, e: Event)
    requires from <= |events|
    ensures ActiveAfter(start, events + [e], from) == if Moves(e) then e.to else ActiveAfter(start, events, from)
  {
    assert (events + [e])[..|events|] == events;
  }

  lemma {:induction false} ActiveAtStart(start: string, events: seq<Event>)
    ensures ActiveAfter(start, events, |events|) == start
  {
  }

  /** The cooldown a state holds is the one its last switch set. */
  predicate CoolingSince(s: State, events: seq<Event>, base: nat, cfg: Config) {
    LastSwitch(events, base).Some? ==> s.cooldownUntil == Some(LastSwitch(events, base).value + cfg.cooldown)
  }

  /** An empty remembered cycle on a recovered fallback is unknown, never a new cycle. */
  function PolicyState(s: State, primary: Node): State {
    if s.active != primary.id && s.cycleKey.None? && KnownCycle(primary.traffic).Some?
    then s.(cycleKey := KnownCycle(primary.traffic)) else s
  }

  function Decide(primary: Node, fallback: Node, s: State, events: seq<Event>, cfg: Config, now: int, cal: Calendar)
    : Decision
  {
    var d := Policy(primary, fallback, PolicyState(s, primary), cfg, now, cal);
    if d.change && Limited(events, cfg, now) then Decision(s.active, false) else d
  }

  /** Why a requested switch is refused; Nil when it may go ahead or is already in force. */
  function Refusal(nodes: map<string, Node>, s: State, events: seq<Event>, cfg: Config, target: string,
                   now: int): Error {
    if target == "" || target !in nodes then UnknownNode
    else if !nodes[target].enabled || nodes[target].maintenance then NodeNotEligible
    else if target == s.active then Nil
    else if s.mode == Auto && s.cooldownUntil.Some? && now < s.cooldownUntil.value then Cooldown
    else if s.mode == Auto && Limited(events, cfg, now) then SwitchRateLimited
    else Nil
  }

  // ---------- DNS ----------

  /** The rules that name a record and one of the three types, in canonical form. */
  function KeptRules(list: seq<(string, string)>, canonicalRule: ((string, string)) -> Option<(string, string)>)
    : seq<(string, string)>
  {
    if list == [] then []
    else
      var rule := canonicalRule(list[|list|-1]);
      KeptRules(list[..|list|-1], canonicalRule) + if rule.Some? then [rule.value] else []
  }

  datatype ProviderMode = ModeUnknown | Mock | Noop | LocalOnly | Real | External | OtherProvider(name: string)

  datatype Change = Change(name: string, kind: string, value: string, ttl: int)

  datatype Guard = Guard(mode: ProviderMode, allowReal: bool, metadataReady: bool, allowlist: seq<(string, string)>,
                         ttl: int)

  datatype DryRun = DryRun(node: string, mode: ProviderMode, change: Change, generatedAt: int, expiresAt: int)

  /** A provider call that changes a record, and the dry-run it consumed. */
  datatype Mutation = Mutation(dryRun: nat, node: string, mode: ProviderMode, change: Change, at: int)

  /** Configured and actual provider modes must agree; real ones need two explicit switches. */
  function ProviderRefusal(guard: Guard, provider: Option<ProviderMode>): Error {
    if provider.None? || guard.mode == ModeUnknown || provider.value != guard.mode then ProviderModeDenied
    else
      match guard.mode
      case Mock => Nil
      case Noop => Nil
      case LocalOnly => Nil
      case Real => RealRefusal(guard)
      case External => RealRefusal(guard)
      case _ => ProviderModeDenied
  }

  function RealRefusal(guard: Guard): Error {
    if !guard.allowReal then ProviderModeDenied
    else if !guard.metadataReady then RollbackMetadataRequired else Nil
  }

  /** Every listed node is stored, every stored node is listed. */
  ghost predicate Enumerates(list: seq<Node>, nodes: map<string, Node>) {
    && (forall n <- list :: n.id in nodes && nodes[n.id] == n)
    && (forall id <- nodes :: nodes[id] in list)
  }

  /** Which writers are installed. */
  datatype Writers = Writers(event: bool, state: bool, transition: bool, dnsRun: bool, dnsPending: bool,
                             dnsCommit: bool)

  /** When the last node switch after the restored events happened. */
  function LastSwitch(events: seq<Event>, base: nat): Option<int> {
    if |events| <= base || events == [] then None
    else if events[|events|-1].kind == NodeSwitched then Some(events[|events|-1].at)
    else LastSwitch(events[..|events|-1], base)
  }

  /** Every automatic switch after the restored events was below the window limit when it was
      made, and came at least the cooldown after the switch before it. */
  predicate PacedFrom(events: seq<Event>, base: nat, cfg: Config) {
    forall j :: base <= j < |events| && events[j].kind == NodeSwitched && events[j].mode == Auto ==>
                  PacedAt(events, base, cfg, j)
  }

  predicate PacedAt(events: seq<Event>, base: nat, cfg: Config, j: nat)
    requires j < |events|
  {
    && Switches(events[..j], events[j].at - cfg.window) < cfg.maxSwitches
    && (LastSwitch(events[..j], base).Some? ==> events[j].at >= LastSwitch(events[..j], base).value + cfg.cooldown)
  }

  lemma SwitchesSplit(events: seq<Event>, e: Event, since: int)
    ensures Switches(events + [e], since)
            == Switches(events, since) + if e.kind == NodeSwitched && e.at >= since then 1 else 0
  {
    assert (events + [e])[..|events|] == events;
  }

  /** Appending an event that is no automatic switch, or one that was let through, keeps the pace. */
  lemma PacedAppend(events: seq<Event>, base: nat, cfg: Config, e: Event)
    requires PacedFrom(events, base, cfg) && base <= |events|
    requires e.kind == NodeSwitched && e.mode == Auto ==>
               && Switches(events, e.at - cfg.window) < cfg.maxSwitches
               && (LastSwitch(events, base).Some? ==> e.at >= LastSwitch(events, base).value + cfg.cooldown)
    ensures PacedFrom(events + [e], base, cfg)
    ensures LastSwitch(events + [e], base) == if e.kind == NodeSwitched then Some(e.at) else LastSwitch(events, base)
  {
    hide Switches, LastSwitch;
    var all := events + [e];
    forall j | base <= j < |all| && all[j].kind == NodeSwitched && all[j].mode == Auto
      ensures PacedAt(all, base, cfg, j)
    {
      assert all[..j] == events[..j];
      if j < |events| { assert PacedAt(events, base, cfg, j); } else { assert events[..j] == events; }
    }
    LastSwitchAppend(events, base, e);
  }

  lemma LastSwitchAppend(events: seq<Event>, base: nat, e: Event)
    requires base <= |events|
    ensures LastSwitch(events + [e], base) == if e.kind == NodeSwitched then Some(e.at) else LastSwitch(events, base)
  {
    assert (events + [e])[..|events|] == events;
  }

  /** The dry-run a mutation used up: same node, mode and change, in time, under the same configuration. */
  ghost predicate Consumed(m: Mutation, under: nat, issued: map<nat, DryRun>, issuedUnder: map<nat, nat>,
                           pending: map<nat, DryRun>) {
    && m.dryRun in issued && m.dryRun in issuedUnder && m.dryRun !in pending
    && m.node == issued[m.dryRun].node && m.mode == issued[m.dryRun].mode && m.change == issued[m.dryRun].change
    && issued[m.dryRun].generatedAt <= m.at < issued[m.dryRun].expiresAt
    && issuedUnder[m.dryRun] == under
  }

  /** Dry-runs and mutations correspond: each mutation has used up a dry-run of its own. */
  ghost predicate Ledger(mutations: seq<Mutation>, under: seq<nat>, issued: map<nat, DryRun>,
                         issuedUnder: map<nat, nat>,
                         pending: map<nat, DryRun>, configuration: nat, mode: ProviderMode, nextID: nat, clock: int,
                         canonical: Change -> Option<Change>) {
    && |under| == |mutations| && issuedUnder.Keys == issued.Keys && 0 < nextID
    && (forall id <- issued :: 0 < id < nextID && issued[id].generatedAt <= clock)
    && (forall id <- pending :: id in issued && issued[id] == pending[id] && issuedUnder[id] == configuration
                                && pending[id].mode == mode
                                && canonical(pending[id].change) == Some(pending[id].change))
    && (forall i :: 0 <= i < |mutations| ==> Consumed(mutations[i], under[i], issued, issuedUnder, pending))
    && (forall i, j :: 0 <= i < j < |mutations| ==> mutations[i].dryRun != mutations[j].dryRun)
  }

  /** A fresh dry-run keeps the ledger. */
  lemma LedgerGrows(mutations: seq<Mutation>, under: seq<nat>, issued: map<nat, DryRun>, issuedUnder: map<nat, nat>,
                    pending: map<nat, DryRun>, configuration: nat, mode: ProviderMode, nextID: nat, clock: int,
                    canonical: Change -> Option<Change>, run: DryRun)
    requires Ledger(mutations, under, issued, issuedUnder, pending, configuration, mode, nextID, clock, canonical)
    requires run.generatedAt == clock && run.mode == mode && canonical(run.change) == Some(run.change)
    ensures nextID !in issued
    ensures Ledger(mutations, under, issued[nextID := run], issuedUnder[nextID := configuration],
                   pending[nextID := run], configuration, mode, nextID + 1, clock, canonical)
  {
    var more, tags := issued[nextID := run], issuedUnder[nextID := configuration];
    assert more.Keys == issued.Keys + {nextID} && tags.Keys == issuedUnder.Keys + {nextID};
    forall i | 0 <= i < |mutations| ensures Consumed(mutations[i], under[i], more, tags, pending[nextID := run]) {
      assert Consumed(mutations[i], under[i], issued, issuedUnder, pending);
    }
  }

  class Controller {
    var nodes: map<string, Node>
    var state: State
    var events: seq<Event>
    var clock: int
    const cfg: Config
    const cal: Calendar
    const writers: Writers

    // the outer None is "no provider", the inner None a provider that does not tell its mode
    var provider: Option<Option<ProviderMode>>
    var guard: Guard
    var pending: map<nat, DryRun>
    var nextID: nat
    const canonical: Change -> Option<Change>

    // what the writers have made durable
    ghost var durableState: State
    ghost var durableEvents: seq<Event>
    ghost const restored: nat                  // events restored at start, and the node active then
    ghost const startActive: string
    ghost const base: nat                      // where pacing starts: 0 if the restored events are paced
    const canonicalRule: ((string, string)) -> Option<(string, string)>
    // every dry-run ever issued, the provider configuration it was issued under, and its use
    ghost var issued: map<nat, DryRun>
    ghost var issuedUnder: map<nat, nat>
    ghost var configuration: nat
    ghost var mutations: seq<Mutation>
    ghost var mutatedUnder: seq<nat>

    /** Event ids are one-based positions. */
    ghost predicate Numbered()
      reads `events
    {
      base <= restored <= |events| && forall i :: 0 <= i < |events| ==> events[i].id == i + 1
    }

    /** With every writer installed, memory shows exactly what is durable. */
    ghost predicate Durable()
      reads `state, `events, `durableState, `durableEvents
    {
      writers.event && writers.transition && writers.dnsCommit ==> state == durableState && events == durableEvents
    }

    ghost predicate Paced()
      reads `events, `state, `clock
    {
      && PacedFrom(events, base, cfg)
      && (forall i :: 0 <= i < |events| ==> events[i].at <= clock)
      && CoolingSince(state, events, base, cfg)
    }

    /** The log tells which node is active. */
    ghost predicate Explained()
      reads `events, `state
    {
      state.active == ActiveAfter(startActive, events, restored)
    }

    ghost predicate Matched()
      reads `mutations, `mutatedUnder, `issued, `issuedUnder, `pending, `configuration, `guard, `nextID, `clock
    {
      Ledger(mutations, mutatedUnder, issued, issuedUnder, pending, configuration, guard.mode, nextID, clock, canonical)
    }

    ghost predicate Configured()
      reads `nodes, `guard
    {
      && cfg.maxSwitches > 0 && cfg.window > 0 && cfg.cooldown > 0 && guard.ttl > 0
      && (forall id <- nodes :: nodes[id].id == id)
      && (forall c :: canonical(c).Some? ==> canonical(canonical(c).value) == canonical(c))
    }

    /** What does not concern dry-runs. */
    ghost predicate Sound()
      reads `nodes, `guard, `state, `events, `durableState, `durableEvents, `clock
    {
      Configured() && Numbered() && Durable() && Paced() && Explained()
    }

    ghost predicate Valid()
      reads this
    {
      Sound() && Matched()
    }

    /** A controller restored from durable state and events.  Pacing goes on over the restored
        events if they are paced and the restored cooldown is that of the last switch. */
    constructor Restore(nodes: map<string, Node>, cfg: Config, cal: Calendar, canonical: Change -> Option<Change>,
                        canonicalRule: ((string, string)) -> Option<(string, string)>,
                        writers: Writers, state: State, events: seq<Event>, now: int)
      requires forall id <- nodes :: nodes[id].id == id
      requires forall c :: canonical(c).Some? ==> canonical(canonical(c).value) == canonical(c)
      requires forall i :: 0 <= i < |events| ==> events[i].id == i + 1 && events[i].at <= now
      ensures Valid() && restored == |events| && this.events == events && this.nodes == nodes && mutations == []
      ensures base == if PacedFrom(events, 0, Normalize(cfg)) && CoolingSince(state, events, 0, Normalize(cfg))
                      then 0 else |events|
      ensures this.state == if state.mode == OtherMode("") then state.(mode := Auto) else state
      ensures this.cfg == Normalize(cfg) && this.cal == cal && this.writers == writers && pending == map[]
    {
      var loaded := if state.mode == OtherMode("") then state.(mode := Auto) else state;
      ActiveAtStart(state.active, events);
      this.nodes, this.cfg, this.cal, this.canonical, this.writers := nodes, Normalize(cfg), cal, canonical, writers;
      this.state, this.events, this.clock, this.canonicalRule := loaded, events, now, canonicalRule;
      this.restored, this.startActive := |events|, state.active;
      this.base := if PacedFrom(events, 0, Normalize(cfg)) && CoolingSince(state, events, 0, Normalize(cfg))
                   then 0 else |events|;
      this.durableState, this.durableEvents := loaded, events;
      this.provider, this.guard, this.pending, this.nextID := None, Guard(ModeUnknown, false, false, [], 300), map[], 1;
      this.issued, this.issuedUnder, this.configuration, this.mutations, this.mutatedUnder := map[], map[], 0, [], [];
    }

    method Now() returns (now: int)
      requires Valid()
      modifies `clock
      ensures Valid() && now == clock >= old(clock)
    {
      hide Configured, Numbered, Durable;
      var elapsed: int := *;
      if elapsed > 0 { clock := clock + elapsed; }
      now := clock;
    }

    /** Map iteration order is arbitrary. */
    method NodeList() returns (list: seq<Node>)
      requires forall id <- nodes :: nodes[id].id == id
      ensures Enumerates(list, nodes)
    {
      list := [];
      var left := nodes.Keys;
      while left != {}
        invariant left <= nodes.Keys
        invariant forall n <- list :: n.id in nodes && nodes[n.id] == n
        invariant forall id <- nodes :: id in left || nodes[id] in list
      {
        var id :| id in left;
        left, list := left - {id}, list + [nodes[id]];
      }
    }

    // ---------- transitions ----------

    function NewEvent(kind: EventKind, from: string, to: string, mode: Mode, success: bool): Event
      reads `events, `clock
    {
      Event(|events| + 1, clock, kind, from, to, mode, success)
    }

    /** The transition writer stores state and event together, or fails and stores neither. */
    method WriteTransition(next: State, e: Event) returns (ok: bool)
      modifies `durableState, `durableEvents
      ensures durableState == (if ok then next else old(durableState))
      ensures durableEvents == (if ok then old(durableEvents) + [e] else old(durableEvents))
    {
      ok := *;
      if ok { durableState, durableEvents := next, durableEvents + [e]; }
    }

    method WriteEvent(e: Event) returns (ok: bool)
      modifies `durableEvents
      ensures durableEvents == (if ok then old(durableEvents) + [e] else old(durableEvents))
    {
      ok := *;
      if ok { durableEvents := durableEvents + [e]; }
    }

    method CommitTransition(next: State, e: Event) returns (err: Error)
      requires Valid() && e.id == |events| + 1 && e.at == clock
      requires e.kind == NodeSwitched && e.mode == Auto ==>
                 && Switches(events, clock - cfg.window) < cfg.maxSwitches
                 && (LastSwitch(events, base).Some? ==> clock >= LastSwitch(events, base).value + cfg.cooldown)
      requires next.cooldownUntil == if e.kind == NodeSwitched then Some(clock + cfg.cooldown) else state.cooldownUntil
      requires next.active == (if e.kind == NodeSwitched then e.to else state.active) && e.kind != DNSSwitchCommitted
      modifies `state, `events, `durableState, `durableEvents
      ensures Valid()
      ensures err.Nil? ==> state == next && events == old(events) + [e]
      ensures !err.Nil? ==> state == old(state) && events == old(events)
      ensures !err.Nil? ==> err == if writers.transition then WriterFailed else AtomicPersistenceRequired
      ensures err.AtomicPersistenceRequired? <==> !writers.transition && (writers.event || writers.state)
    {
      hide Configured, Matched, Switches, LastSwitch, PacedFrom, ActiveAfter;
      if writers.transition {
        var ok := WriteTransition(next, e);
        if !ok { return WriterFailed; }
      } else if writers.event || writers.state {
        return AtomicPersistenceRequired;
      }
      PacedAppend(events, base, cfg, e);
      ActiveAppend(startActive, events, restored, e);
      state, events := next, events + [e];
      err := Nil;
    }

    method SetMode(mode: Mode) returns (err: Error)
      requires Valid()
      modifies `clock, `state, `events, `durableState, `durableEvents
      ensures Valid() && clock >= old(clock)
      ensures mode.OtherMode? <==> err.InvalidMode?
      ensures err.Nil? ==> state == old(state).(mode := mode)
                           && events == old(events) + [old(NewEvent(ModeChanged, "", "", mode, true)).(at := clock)]
      ensures !err.Nil? ==> state == old(state) && events == old(events)
    {
      hide Configured, Matched, Numbered, Durable, Paced;
      if mode.OtherMode? { return InvalidMode; }
      var _ := Now();
      err := CommitTransition(state.(mode := mode), NewEvent(ModeChanged, "", "", mode, true));
    }

    method SetTraffic(sample: TrafficSample) returns (err: Error)
      requires Valid()
      modifies `clock, `nodes
      ensures Valid() && clock >= old(clock) && state == old(state) && events == old(events)
      ensures sample.nodeID !in old(nodes) ==> err.UnknownNode?
      ensures sample.nodeID in old(nodes) && InvalidSample(sample) ==> err.InvalidTraffic?
      ensures err.Nil? ==>
                && sample.nodeID in old(nodes) && !InvalidSample(sample)
                && nodes == old(nodes)[sample.nodeID :=
                              old(nodes)[sample.nodeID].(traffic := NormalSample(sample, clock))]
      ensures !err.Nil? ==> nodes == old(nodes)
    {
      hide Matched, Numbered, Durable, Paced;
      if sample.nodeID !in nodes { return UnknownNode; }
      if InvalidSample(sample) { return InvalidTraffic; }
      var now := Now();
      var written: bool := *;
      if !written { return WriterFailed; }
      nodes := nodes[sample.nodeID := nodes[sample.nodeID].(traffic := NormalSample(sample, now))];
      err := Nil;
    }

    method SetHealth(id: string, success: bool) returns (err: Error)
      requires Valid()
      modifies `nodes
      ensures Valid() && state == old(state) && events == old(events)
      ensures id !in old(nodes) <==> err.UnknownNode?
      ensures err.Nil? ==>
                && id in old(nodes)
                && nodes == old(nodes)[id := RecordHealth(old(nodes)[id], success, cfg.failureThreshold)]
      ensures !err.Nil? ==> nodes == old(nodes)
    {
      hide Matched, Numbered, Durable, Paced;
      if id !in nodes { return UnknownNode; }
      var written: bool := *;
      if !written { return WriterFailed; }
      nodes := nodes[id := RecordHealth(nodes[id], success, cfg.failureThreshold)];
      err := Nil;
    }

    method SetMaintenance(id: string, maintenance: bool) returns (err: Error)
      requires Valid()
      modifies `nodes
      ensures Valid() && state == old(state) && events == old(events)
      ensures err == if id in old(nodes) then Nil else UnknownNode
      ensures err.Nil? ==> id in old(nodes) && nodes == old(nodes)[id := old(nodes)[id].(maintenance := maintenance)]
      ensures !err.Nil? ==> nodes == old(nodes)
    {
      hide Matched, Numbered, Durable, Paced;
      if id !in nodes { return UnknownNode; }
      nodes := nodes[id := nodes[id].(maintenance := maintenance)];
      err := Nil;
    }

    /** Counts the node switches inside the window. */
    method SwitchLimitReached(now: int) returns (reached: bool)
      ensures reached == Limited(events, cfg, now)
    {
      if cfg.maxSwitches <= 0 { return false; }
      var count := 0;
      for i := 0 to |events|
        invariant count == Switches(events[..i], now - cfg.window)
      {
        assert events[..i+1] == events[..i] + [events[i]];
        SwitchesSplit(events[..i], events[i], now - cfg.window);
        if events[i].kind == NodeSwitched && events[i].at >= now - cfg.window { count := count + 1; }
      }
      assert events[..|events|] == events;
      reached := count >= cfg.maxSwitches;
    }

    method Evaluate() returns (decision: Decision, list: seq<Node>)
      requires Valid()
      modifies `clock
      ensures Valid() && Enumerates(list, nodes)
      ensures decision == Decide(FindRole(list, Primary), FindRole(list, Fallback), state, events, cfg, clock, cal)
    {
      hide Matched, Numbered, Durable, Paced, Policy;
      var _ := Now();
      decision, list := EvaluateNow();
    }

    /** The decision at the moment last read off the clock. */
    method EvaluateNow() returns (decision: Decision, list: seq<Node>)
      requires Valid()
      ensures Enumerates(list, nodes)
      ensures decision == Decide(FindRole(list, Primary), FindRole(list, Fallback), state, events, cfg, clock, cal)
    {
      hide Matched, Numbered, Durable, Paced, Policy;
      var all := NodeList();
      list := all;
      var primary, fallback := FindRoles(all);
      decision := Policy(primary, fallback, PolicyState(state, primary), cfg, clock, cal);
      if decision.change {
        var limited := SwitchLimitReached(clock);
        if limited { decision := Decision(state.active, false); }
      }
    }

    method RejectNode(id: string) returns (err: Error)
      requires Valid()
      modifies `events, `durableEvents
      ensures Valid() && (err.NodeNotEligible? || err.WriterFailed?)
      ensures events == if err.NodeNotEligible?
                        then old(events) + [old(NewEvent(SwitchRejected, "", id, state.mode, false))]
                        else old(events)
    {
      hide Configured, Matched, Switches, LastSwitch, PacedFrom, ActiveAfter;
      var e := NewEvent(SwitchRejected, "", id, state.mode, false);
      if writers.event {
        var ok := WriteEvent(e);
        if !ok { return WriterFailed; }
      }
      PacedAppend(events, base, cfg, e);
      ActiveAppend(startActive, events, restored, e);
      events := events + [e];
      err := NodeNotEligible;
    }

    /** Cooldown first, then the sliding window; only automatic switches wait. */
    method Throttle(now: int) returns (err: Error)
      requires Valid() && now == clock
      ensures err == if state.mode == Auto && state.cooldownUntil.Some? && now < state.cooldownUntil.value then Cooldown
                     else if state.mode == Auto && Limited(events, cfg, now) then SwitchRateLimited else Nil
    {
      if state.mode == Auto && state.cooldownUntil.Some? && now < state.cooldownUntil.value { return Cooldown; }
      var limited := SwitchLimitReached(now);
      err := if state.mode == Auto && limited then SwitchRateLimited else Nil;
    }

    method ApplyDecision(target: string) returns (err: Error, list: seq<Node>)
      requires Valid()
      modifies `clock, `state, `events, `durableState, `durableEvents
      ensures Valid() && Enumerates(list, nodes)
      ensures var r := Refusal(nodes, old(state), old(events), cfg, target, clock);
              && (!r.Nil? && !r.NodeNotEligible? ==> err == r && state == old(state) && events == old(events))
              && (r.NodeNotEligible? ==> !err.Nil? && state == old(state))
              && (err.NodeNotEligible? ==>
                    r.NodeNotEligible?
                    && events == old(events)
                                 + [old(NewEvent(SwitchRejected, "", target, state.mode, false)).(at := clock)])
              && (r.Nil? && target == old(state).active ==> err.Nil? && state == old(state) && events == old(events))
              && (r.Nil? && target != old(state).active && err.Nil? ==>
                    && state == Switched(old(state), target, clock, cfg.cooldown, FindRole(list, Primary))
                    && events == old(events)
                                 + [old(NewEvent(NodeSwitched, state.active, target, state.mode, true)).(at := clock)])
              && (!err.Nil? && !err.NodeNotEligible? ==> state == old(state) && events == old(events))
              && (r.Nil? && !err.Nil? ==> writers.transition || writers.event || writers.state)
    {
      hide Matched, Numbered, Durable, Paced, Explained, Configured;
      var _ := Now();
      err, list := ApplyDecisionNow(target);
    }

    /** At the moment last read off the clock. */
    method ApplyDecisionNow(target: string) returns (err: Error, list: seq<Node>)
      requires Valid()
      modifies `state, `events, `durableState, `durableEvents
      ensures Valid() && Enumerates(list, nodes)
      ensures var r := Refusal(nodes, old(state), old(events), cfg, target, clock);
              && (!r.Nil? && !r.NodeNotEligible? ==> err == r && state == old(state) && events == old(events))
              && (r.NodeNotEligible? ==> !err.Nil? && state == old(state))
              && (err.NodeNotEligible? ==>
                    r.NodeNotEligible?
                    && events == old(events)
                                 + [old(NewEvent(SwitchRejected, "", target, state.mode, false)).(at := clock)])
              && (r.Nil? && target == old(state).active ==> err.Nil? && state == old(state) && events == old(events))
              && (r.Nil? && target != old(state).active && err.Nil? ==>
                    && state == Switched(old(state), target, clock, cfg.cooldown, FindRole(list, Primary))
                    && events == old(events)
                                 + [old(NewEvent(NodeSwitched, state.active, target, state.mode, true)).(at := clock)])
              && (!err.Nil? && !err.NodeNotEligible? ==> state == old(state) && events == old(events))
              && (r.Nil? && !err.Nil? ==> writers.transition || writers.event || writers.state)
    {
      hide Matched, Numbered, Durable, Switches, LastSwitch, PacedFrom;
      var all := NodeList();
      list := all;
      if target == "" || target !in nodes { return UnknownNode, list; }
      if !nodes[target].enabled || nodes[target].maintenance { err := RejectNode(target); return; }
      if target == state.active { return Nil, list; }
      err := Throttle(clock);
      if !err.Nil? { return; }
      err := SwitchNode(target, all);
    }

    method SwitchNode(target: string, all: seq<Node>) returns (err: Error)
      requires Valid() && target != state.active
      requires Refusal(nodes, state, events, cfg, target, clock).Nil? && Enumerates(all, nodes)
      modifies `state, `events, `durableState, `durableEvents
      ensures Valid() && !err.NodeNotEligible?
      ensures !err.Nil? ==> writers.transition || writers.event || writers.state
      ensures err.Nil? ==>
                && state == Switched(old(state), target, clock, cfg.cooldown, FindRole(all, Primary))
                && events == old(events) + [old(NewEvent(NodeSwitched, state.active, target, state.mode, true))]
      ensures !err.Nil? ==> state == old(state) && events == old(events)
    {
      hide Matched, Numbered, Durable, Switches, LastSwitch, PacedFrom;
      var primary, _ := FindRoles(all);
      err := CommitTransition(Switched(state, target, clock, cfg.cooldown, primary),
                              NewEvent(NodeSwitched, state.active, target, state.mode, true));
    }

    // ---------- DNS ----------

    method SetDNSProvider(provider: Option<Option<ProviderMode>>)
      requires Valid()
      modifies `provider, `pending, `configuration
      ensures Valid() && pending == map[] && this.provider == provider && configuration == old(configuration) + 1
    {
      hide Configured, Numbered, Durable, Paced, Explained;
      this.provider, pending, configuration := provider, map[], configuration + 1;
    }

    /** An allow-list keeps the rules that name a record and a type; a lifetime out of range
        becomes five minutes. */
    method ConfigureDNSGuard(guard: Guard)
      requires Valid()
      modifies `guard, `pending, `configuration
      ensures Valid() && pending == map[] && configuration == old(configuration) + 1
      ensures this.guard == guard.(ttl := if guard.ttl <= 0 || guard.ttl > 15 * MINUTE then 5 * MINUTE else guard.ttl,
                                   allowlist := KeptRules(guard.allowlist, canonicalRule))
    {
      hide Numbered, Durable, Paced;
      var rules: seq<(string, string)> := [];
      for i := 0 to |guard.allowlist|
        invariant rules == KeptRules(guard.allowlist[..i], canonicalRule)
      {
        assert guard.allowlist[..i + 1][..i] == guard.allowlist[..i];
        var rule := canonicalRule(guard.allowlist[i]);
        if rule.Some? { rules := rules + [rule.value]; }
      }
      assert guard.allowlist[..|guard.allowlist|] == guard.allowlist;
      this.guard := guard.(ttl := if guard.ttl <= 0 || guard.ttl > 15 * MINUTE then 5 * MINUTE else guard.ttl,
                           allowlist := rules);
      pending, configuration := map[], configuration + 1;
    }

    function ProviderCheck(): Error
      reads `provider, `guard
    {
      if provider.None? then ProviderUnavailable else ProviderRefusal(guard, provider.value)
    }

    /** The canonical form of a change on the allowlist. */
    function Allowed(change: Change): Option<Change>
      reads `guard
    {
      var c := canonical(change);
      if c.Some? && (c.value.name, c.value.kind) in guard.allowlist then c else None
    }

    method PrepareDNSApply(change: Change, node: string) returns (id: nat, err: Error)
      requires Valid()
      modifies `clock, `pending, `nextID, `issued, `issuedUnder
      ensures Valid() && mutations == old(mutations)
      ensures !err.Nil? ==> pending == old(pending) && id == 0
      ensures err.Nil? ==>
                && ProviderCheck().Nil? && Allowed(change).Some?
                && node in nodes && nodes[node].enabled && !nodes[node].maintenance
                && id !in old(issued) && id in pending
                && pending[id] == DryRun(node, guard.mode, Allowed(change).value, clock, clock + guard.ttl)
                && forall k <- pending ::
                     k == id || (k in old(pending) && pending[k] == old(pending)[k] && clock < pending[k].expiresAt)
    {
      hide Numbered, Durable, Paced, Matched;
      id := 0;
      if !ProviderCheck().Nil? { return 0, ProviderCheck(); }
      if node !in nodes { return 0, UnknownNode; }
      if !nodes[node].enabled || nodes[node].maintenance { return 0, NodeNotEligible; }
      var normalized := Allowed(change);
      if normalized.None? { return 0, RecordNotAllowed; }
      var previousKnown: bool, planned: bool, recorded: bool := *, *, *;
      if (guard.mode == Real || guard.mode == External) && !previousKnown { return 0, RollbackMetadataRequired; }
      if writers.dnsRun && !recorded { return 0, WriterFailed; }
      if !planned { return 0, ProviderFailed; }
      var now := Now();
      id := Issue(DryRun(node, guard.mode, normalized.value, now, now + guard.ttl));
      err := Nil;
    }

    method DropExpired()
      requires Valid()
      modifies `pending
      ensures Valid()
      ensures pending == map k | k in old(pending) && clock < old(pending)[k].expiresAt :: old(pending)[k]
    {
      hide Configured, Numbered, Durable, Paced, Explained;
      pending := map k | k in pending && clock < pending[k].expiresAt :: pending[k];
    }

    /** Gives a dry-run a fresh id and drops the expired ones. */
    method Issue(run: DryRun) returns (id: nat)
      requires Valid() && run.mode == guard.mode && canonical(run.change) == Some(run.change)
      requires run.generatedAt == clock
      modifies `pending, `nextID, `issued, `issuedUnder
      ensures Valid() && id !in old(issued) && issued == old(issued)[id := run]
      ensures pending == (map k | k in old(pending) && clock < old(pending)[k].expiresAt :: old(pending)[k])[id := run]
    {
      hide Valid;
      DropExpired();
      id := Register(run);
    }

    method Register(run: DryRun) returns (id: nat)
      requires Valid() && run.mode == guard.mode && canonical(run.change) == Some(run.change)
      requires run.generatedAt == clock
      modifies `pending, `nextID, `issued, `issuedUnder
      ensures Valid() && id !in old(issued) && issued == old(issued)[id := run]
      ensures pending == old(pending)[id := run]
    {
      hide Sound, Ledger;
      LedgerGrows(mutations, mutatedUnder, issued, issuedUnder, pending, configuration, guard.mode, nextID, clock,
                  canonical, run);
      id, nextID := nextID, nextID + 1;
      issued, issuedUnder := issued[id := run], issuedUnder[id := configuration];
      pending := pending[id := run];
    }

    /** The one call that changes a provider record; its error says nothing about its effect. */
    method ApplyDNS(change: Change, ghost id: nat, ghost run: DryRun) returns (verified: bool)
      requires Valid() && id in issued && id !in pending && issued[id] == run && issuedUnder[id] == configuration
      requires forall i :: 0 <= i < |mutations| ==> mutations[i].dryRun != id
      requires canonical(change) == Some(change) && run.change == change && run.mode == guard.mode
      requires run.generatedAt <= clock < run.expiresAt
      modifies `mutations, `mutatedUnder
      ensures Valid()
      ensures mutations == old(mutations) + [Mutation(id, run.node, run.mode, run.change, clock)]
      ensures mutatedUnder == old(mutatedUnder) + [configuration]
    {
      hide Configured, Numbered, Durable, Paced, Explained;
      var normalized := canonical(change);
      mutations := mutations + [Mutation(id, run.node, guard.mode, normalized.value, clock)];
      mutatedUnder := mutatedUnder + [configuration];
      verified := *;
    }

    /** Looks a dry-run up, and takes it out whatever becomes of it. */
    method Consume(id: nat) returns (run: Option<DryRun>)
      requires Valid()
      modifies `pending
      ensures Valid() && id !in pending && pending == old(pending) - {id}
      ensures run == if id in old(pending) then Some(old(pending)[id]) else None
      ensures run.Some? ==>
                && id in issued && issued[id] == run.value && issuedUnder[id] == configuration
                && run.value.mode == guard.mode && canonical(run.value.change) == Some(run.value.change)
                && run.value.generatedAt <= clock
                && forall i :: 0 <= i < |mutations| ==> mutations[i].dryRun != id
    {
      hide Configured, Numbered, Durable, Paced, Explained;
      run := None;
      if id in pending {
        run := Some(pending[id]);
        forall i | 0 <= i < |mutations|
          ensures mutations[i].dryRun != id
        {
          assert Consumed(mutations[i], mutatedUnder[i], issued, issuedUnder, pending);
        }
        pending := pending - {id};
      }
    }

    /** Record, node and event of a verified DNS change, published together. */
    ghost predicate PublishedOver(was: State, log: seq<Event>, node: string)
      reads `state, `events, `nodes, `clock
    {
      && events == log + [Event(|log| + 1, clock, DNSSwitchCommitted, "", node, was.mode, true)]
      && exists list :: Enumerates(list, nodes) && state == DNSCommitted(was, node, clock, FindRole(list, Primary))
    }

    /** State and events as a DNS commit with this answer leaves them. */
    ghost predicate LeftBy(err: Error, was: State, log: seq<Event>, node: string)
      reads `state, `events, `nodes, `clock
    {
      match err
      case Nil => PublishedOver(was, log, node)
      case NodeNotEligible =>
        state == was && events == log + [Event(|log| + 1, clock, SwitchRejected, "", node, was.mode, false)]
      case ProviderFailed =>
        || (state == was && events == log)
        || (state == was.(reconcile := true)
            && events == log + [Event(|log| + 1, clock, DNSSwitchFailed, "", node, was.mode, false)])
      case _ => state == was && events == log
    }

    method ApplyDNSAndCommit(change: Change, node: string, id: nat) returns (err: Error)
      requires Valid()
      modifies `clock, `pending, `state, `events, `durableState, `durableEvents, `mutations, `mutatedUnder
      ensures Valid() && clock >= old(clock) && LeftBy(err, old(state), old(events), node)
      ensures id == 0 ==> err == DryRunRequired && pending == old(pending)
      ensures id != 0 && !ProviderCheck().Nil? ==> err == ProviderCheck() && pending == old(pending)
      ensures id != 0 && ProviderCheck().Nil? ==> pending == old(pending) - {id}
      ensures mutations == old(mutations) || (
                && id in old(pending) && ProviderCheck().Nil? && node in nodes
                && nodes[node].enabled && !nodes[node].maintenance
                && old(pending)[id].node == node && Some(old(pending)[id].change) == Allowed(change)
                && clock < old(pending)[id].expiresAt
                && mutations == old(mutations) + [Mutation(id, node, guard.mode, old(pending)[id].change, clock)])
      ensures err.Nil? ==> mutations != old(mutations) && PublishedOver(old(state), old(events), node)
      ensures err.DryRunRequired? || err.DryRunExpired? || err.DryRunMismatch? || err.RecordNotAllowed? ==>
                mutations == old(mutations) && state == old(state) && events == old(events)
    {
      hide Numbered, Durable, Paced, Matched, PublishedOver;
      if id == 0 { return DryRunRequired; }
      if !ProviderCheck().Nil? { return ProviderCheck(); }
      var run := Consume(id);
      if run.None? { return DryRunRequired; }
      err := ApplyRun(run.value, change, node, id);
    }

    method ApplyRun(run: DryRun, change: Change, node: string, id: nat) returns (err: Error)
      requires Valid()
      requires id in issued && id !in pending && issued[id] == run && issuedUnder[id] == configuration
      requires forall i :: 0 <= i < |mutations| ==> mutations[i].dryRun != id
      requires canonical(run.change) == Some(run.change) && run.mode == guard.mode && run.generatedAt <= clock
      modifies `clock, `state, `events, `durableState, `durableEvents, `mutations, `mutatedUnder
      ensures Valid() && clock >= old(clock) && LeftBy(err, old(state), old(events), node)
      ensures mutations == old(mutations) || (
                && node in nodes && nodes[node].enabled && !nodes[node].maintenance
                && run.node == node && Some(run.change) == Allowed(change) && clock < run.expiresAt
                && mutations == old(mutations) + [Mutation(id, node, guard.mode, run.change, clock)])
      ensures err.Nil? ==> mutations != old(mutations) && PublishedOver(old(state), old(events), node)
      ensures err.DryRunRequired? || err.DryRunExpired? || err.DryRunMismatch? || err.RecordNotAllowed? ==>
                mutations == old(mutations) && state == old(state) && events == old(events)
    {
      hide Numbered, Durable, Paced, Matched, PublishedOver;
      var now := Now();
      if now >= run.expiresAt { return DryRunExpired; }
      var normalized := Allowed(change);
      if normalized.None? { return RecordNotAllowed; }
      if run.node != node || run.mode != guard.mode || run.change != normalized.value { return DryRunMismatch; }
      if node !in nodes { return UnknownNode; }
      if !nodes[node].enabled || nodes[node].maintenance { err := RejectNode(node); return; }
      err := ApplyAndPublish(run, id);
    }

    method ApplyAndPublish(run: DryRun, id: nat) returns (err: Error)
      requires Valid() && run.node in nodes
      requires id in issued && id !in pending && issued[id] == run && issuedUnder[id] == configuration
      requires forall i :: 0 <= i < |mutations| ==> mutations[i].dryRun != id
      requires canonical(run.change) == Some(run.change) && run.mode == guard.mode
      requires run.generatedAt <= clock < run.expiresAt
      modifies `state, `events, `durableState, `durableEvents, `mutations, `mutatedUnder
      ensures Valid() && !err.NodeNotEligible? && LeftBy(err, old(state), old(events), run.node)
      ensures mutations == old(mutations)
              || mutations == old(mutations) + [Mutation(id, run.node, run.mode, run.change, clock)]
      ensures mutations == old(mutations) ==> !err.Nil? && state == old(state) && events == old(events)
      ensures err.Nil? ==> PublishedOver(old(state), old(events), run.node)
      ensures !err.DryRunRequired? && !err.DryRunExpired? && !err.DryRunMismatch? && !err.RecordNotAllowed?
    {
      hide Numbered, Durable, Paced, Matched;
      if !writers.dnsCommit && (writers.dnsRun || writers.dnsPending || writers.event || writers.state) {
        return AtomicPersistenceRequired;
      }
      if writers.dnsPending {
        var recorded: bool := *;
        if !recorded { return WriterFailed; }
      }
      var verified := ApplyDNS(run.change, id, run);
      if !verified {
        var _ := CommitDNS(state.(reconcile := true), NewEvent(DNSSwitchFailed, "", run.node, state.mode, false));
        return ProviderFailed;
      }
      err := PublishDNS(run.node);
    }

    method PublishDNS(node: string) returns (err: Error)
      requires Valid() && node in nodes
      modifies `state, `events, `durableState, `durableEvents
      ensures Valid() && (err.Nil? || err.WriterFailed?)
      ensures err.Nil? ==> PublishedOver(old(state), old(events), node)
      ensures !err.Nil? ==> state == old(state) && events == old(events)
    {
      hide Numbered, Durable, Paced, Matched;
      var all := NodeList();
      var primary, _ := FindRoles(all);
      var next := DNSCommitted(state, node, clock, primary);
      err := CommitDNS(next, NewEvent(DNSSwitchCommitted, "", node, next.mode, true));
    }

    /** The DNS commit writer stores run, state and event together, or nothing. */
    method CommitDNS(next: State, e: Event) returns (err: Error)
      requires Valid() && e.id == |events| + 1 && e.at == clock && e.kind != NodeSwitched
      requires next.cooldownUntil == state.cooldownUntil
      requires next.active == if e.kind == DNSSwitchCommitted then e.to else state.active
      modifies `state, `events, `durableState, `durableEvents
      ensures Valid() && (err.Nil? || err.WriterFailed?)
      ensures err.Nil? ==> state == next && events == old(events) + [e]
      ensures !err.Nil? ==> state == old(state) && events == old(events)
    {
      hide Configured, Matched, Switches, LastSwitch, PacedFrom, ActiveAfter;
      if writers.dnsCommit {
        var ok := WriteTransition(next, e);
        if !ok { return WriterFailed; }
      }
      PacedAppend(events, base, cfg, e);
      ActiveAppend(startActive, events, restored, e);
      state, events := next, events + [e];
      err := Nil;
    }
  }
}
