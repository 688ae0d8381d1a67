/** The pure failover policy: which of two nodes should serve, and when the primary may return. */
module FailoverPolicy {
  import opened Wrappers

  datatype Mode = Auto | ForceNOSLA | ForceBWG | MaintenanceNOSLA | OtherMode(name: string)

  datatype Role = Primary | Fallback | OtherRole

  datatype Health = Healthy | Degraded | HealthFailed | HealthUnknown

  datatype Quality = Known | Stale | Unknown | Unset

  /** A cycle key is the start of the billing cycle it names; None is the empty key. */
  datatype TrafficSample = TrafficSample(
    nodeID: string, cycleKey: Option<int>, inbound: int, outbound: int, total: int,
    quota: int, threshold: real, quality: Quality, sampledAt: Option<int>)

  datatype Node = Node(
    id: string, role: Role, enabled: bool, maintenance: bool, priority: int, resetDay: int, zone: string,
    health: Health, failures: nat, successes: nat, traffic: TrafficSample)

  /** The node findRoles starts from when no node has the role. */
  const NO_NODE := Node("", OtherRole, false, false, 0, 0, "", HealthUnknown, 0, 0,
                        TrafficSample("", None, 0, 0, 0, 0, 0.0, Unset, None))

  datatype State = State(
    active: string, desired: string, observedDNS: string, mode: Mode,
    cooldownUntil: Option<int>, lastTransition: Option<int>, lastEvaluation: Option<int>,
    cycleKey: Option<int>, reconcile: bool)

  datatype Config = Config(
    failureThreshold: int, recoverySuccesses: int, cooldown: int,
    trafficThreshold: real, returnThreshold: real, resetGrace: int,
    disableReturn: bool, allowUnknownRecovery: bool, maxSwitches: int, window: int)

  const MINUTE := 60
  const HOUR := 60 * MINUTE

  const DEFAULTS := Config(3, 3, 30 * MINUTE, 85.0, 15.0, 6 * HOUR, false, false, 3, 24 * HOUR)

  function Normalize(cfg: Config): (r: Config)
    ensures r.failureThreshold > 0 && r.recoverySuccesses > 0 && r.cooldown > 0 && r.resetGrace > 0
    ensures r.maxSwitches > 0 && r.window > 0
  {
    cfg.(failureThreshold := if cfg.failureThreshold <= 0 then DEFAULTS.failureThreshold else cfg.failureThreshold,
         recoverySuccesses := if cfg.recoverySuccesses <= 0 then DEFAULTS.recoverySuccesses else cfg.recoverySuccesses,
         cooldown := if cfg.cooldown <= 0 then DEFAULTS.cooldown else cfg.cooldown,
         trafficThreshold := if cfg.trafficThreshold <= 0.0 then DEFAULTS.trafficThreshold else cfg.trafficThreshold,
         returnThreshold := if cfg.returnThreshold <= 0.0 then DEFAULTS.returnThreshold else cfg.returnThreshold,
         resetGrace := if cfg.resetGrace <= 0 then DEFAULTS.resetGrace else cfg.resetGrace,
         maxSwitches := if cfg.maxSwitches <= 0 then DEFAULTS.maxSwitches else cfg.maxSwitches,
         window := if cfg.window <= 0 then DEFAULTS.window else cfg.window)
  }

  datatype Decision = Decision(node: string, change: bool)

  const NO_DECISION := Decision("", false)

  /** Start of the billing cycle that holds a moment, for a reset day and zone. */
  type Calendar = (int, int, string) -> int

  // ---------- roles ----------

  /** The first node of a role among those with the lowest priority number. */
  function FindRole(nodes: seq<Node>, role: Role): Node {
    if nodes == [] then NO_NODE
    else
      var best, n := FindRole(nodes[..|nodes|-1], role), nodes[|nodes|-1];
      if n.role == role && (best.id == "" || n.priority < best.priority) then n else best
  }

  /** One loop finds both roles, as the source does. */
  method FindRoles(nodes: seq<Node>) returns (primary: Node, fallback: Node)
    ensures primary == FindRole(nodes, Primary) && fallback == FindRole(nodes, Fallback)
  {
    primary, fallback := NO_NODE, NO_NODE;
    for i := 0 to |nodes|
      invariant primary == FindRole(nodes[..i], Primary) && fallback == FindRole(nodes[..i], Fallback)
    {
      var node := nodes[i];
      assert nodes[..i+1][..i] == nodes[..i];
      if node.role == Primary && (primary.id == "" || node.priority < primary.priority) { primary := node; }
      if node.role == Fallback && (fallback.id == "" || node.priority < fallback.priority) { fallback := node; }
    }
    assert nodes[..|nodes|] == nodes;
  }

  /** `best` is the only node of its role with the lowest priority number. */
  predicate Leads(nodes: seq<Node>, best: Node) {
    && best in nodes && best.id != ""
    && forall n <- nodes :: n.role == best.role && n != best ==> n.priority > best.priority
  }

  /** A leader is found in whatever order the nodes are listed. */
  lemma {:induction false} LeaderIsFound(nodes: seq<Node>, best: Node)
    requires Leads(nodes, best) && forall n <- nodes :: n.id != ""
    ensures FindRole(nodes, best.role) == best
  {
    var most, last := nodes[..|nodes|-1], nodes[|nodes|-1];
    if best in most {
      LeaderIsFound(most, best);
    } else {
      RoleIsMember(most, best.role);
    }
  }

  lemma {:induction false} RoleIsMember(nodes: seq<Node>, role: Role)
    requires forall n <- nodes :: n.id != ""
    ensures var r := FindRole(nodes, role); r == NO_NODE || (r in nodes && r.role == role)
  {
    if nodes != [] { RoleIsMember(nodes[..|nodes|-1], role); }
  }

  // ---------- decisions ----------

  function UsagePercent(s: TrafficSample): Option<real> {
    if s.quality != Known || s.quota <= 0 then None else Some(s.total as real * 100.0 / s.quota as real)
  }

  predicate TrafficAtThreshold(s: TrafficSample, fallbackThreshold: real) {
    && s.quality == Known && s.quota > 0
    && UsagePercent(s).value >= (if s.threshold <= 0.0 then fallbackThreshold else s.threshold)
  }

  predicate Serviceable(n: Node) {
    n.enabled && n.health != HealthFailed && !n.maintenance
  }

  predicate CooldownExpired(s: State, now: int) {
    s.cooldownUntil.Some? ==> now >= s.cooldownUntil.value
  }

  /** The primary shows a billing cycle other than the one the state remembers. */
  predicate NewKnownCycle(primary: Node, s: State, cfg: Config, now: int, cal: Calendar) {
    var sample := primary.traffic;
    var blind := sample.quality == Unknown || sample.quality == Stale;
    && (blind ==> cfg.allowUnknownRecovery)
    && (primary.resetDay > 0 ==> sample.cycleKey == Some(cal(now, primary.resetDay, primary.zone)))
    && sample.cycleKey.Some? && sample.cycleKey != s.cycleKey
    && now >= cal(now, primary.resetDay, primary.zone) + cfg.resetGrace
    && (blind || (UsagePercent(sample).Some? && UsagePercent(sample).value < cfg.returnThreshold))
  }

  predicate PrimaryNeedsFailover(primary: Node, cfg: Config) {
    || primary.maintenance || primary.failures >= cfg.failureThreshold
    || TrafficAtThreshold(primary.traffic, cfg.trafficThreshold)
  }

  function AutoDecision(primary: Node, fallback: Node, s: State, cfg: Config, now: int, cal: Calendar): string {
    if s.active == "" then
      if Serviceable(primary) then primary.id else if Serviceable(fallback) then fallback.id else ""
    else if s.active == primary.id then
      if PrimaryNeedsFailover(primary, cfg) && Serviceable(fallback) && CooldownExpired(s, now)
      then fallback.id else primary.id
    else if s.active == fallback.id && Serviceable(primary) && Serviceable(fallback) && CooldownExpired(s, now) then
      if cfg.disableReturn || primary.successes < cfg.recoverySuccesses || !NewKnownCycle(primary, s, cfg, now, cal)
      then fallback.id else primary.id
    else if Serviceable(fallback) then fallback.id
    else if Serviceable(primary) then primary.id else ""
  }

  /** The policy on the two role holders. */
  function Policy(primary: Node, fallback: Node, s: State, cfg: Config, now: int, cal: Calendar): Decision {
    if primary.id == "" || fallback.id == "" then NO_DECISION
    else
      var requested :=
        match s.mode
        case ForceNOSLA => if !primary.enabled || primary.maintenance then "" else primary.id
        case ForceBWG => if !fallback.enabled || fallback.maintenance then "" else fallback.id
        case MaintenanceNOSLA => if Serviceable(fallback) then fallback.id else ""
        case Auto => AutoDecision(primary, fallback, s, cfg, now, cal)
        case OtherMode(name) => if name == "" then AutoDecision(primary, fallback, s, cfg, now, cal) else "";
      if requested == "" then NO_DECISION else Decision(requested, requested != s.active)
  }

  function Evaluate(nodes: seq<Node>, s: State, cfg: Config, now: int, cal: Calendar): Decision {
    Policy(FindRole(nodes, Primary), FindRole(nodes, Fallback), s, Normalize(cfg), now, cal)
  }

  function KnownCycle(s: TrafficSample): Option<int> {
    if s.quality != Known then None else s.cycleKey
  }

  /** While the fallback can serve, automatic mode hands back to a primary whose traffic is known,
      or must be, only in a cycle the state does not remember and under the return threshold. */
  lemma ReturnNeedsNewCycle(primary: Node, fallback: Node, s: State, cfg: Config, now: int, cal: Calendar)
    requires primary.id != "" && fallback.id != "" && primary.id != fallback.id
    requires s.mode == Auto && s.active == fallback.id && Serviceable(fallback)
    requires KnownCycle(primary.traffic).Some? || !cfg.allowUnknownRecovery
    requires Policy(primary, fallback, s, cfg, now, cal).node == primary.id
    ensures KnownCycle(primary.traffic).Some? && KnownCycle(primary.traffic) != s.cycleKey
    ensures primary.resetDay > 0 ==> KnownCycle(primary.traffic) == Some(cal(now, primary.resetDay, primary.zone))
    ensures UsagePercent(primary.traffic).Some? && UsagePercent(primary.traffic).value < cfg.returnThreshold
    ensures Serviceable(primary) && primary.successes >= cfg.recoverySuccesses && CooldownExpired(s, now)
  {
    assert NewKnownCycle(primary, s, cfg, now, cal);
  }
}
