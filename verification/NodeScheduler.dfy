/** Choosing the proxy node that serves: eligibility, tiers, quota pacing and hysteresis. */
module NodeScheduler {
  import opened Wrappers

  const HEARTBEAT_FRESHNESS := 5 * 60
  const STICKINESS := 0.03
  const WHOLE_CYCLE := 30.0 * 24.0 * 3600.0

  /** Times in seconds; `secure` says that the public address is a plain https origin. */
  datatype ProxyNode = ProxyNode(
    id: string, name: string, priority: int, enabled: bool, healthy: bool, lastHeartbeatAt: int,
    playbackHealthy: bool, configSynced: bool, ingressHealthy: bool, secure: bool,
    quotaBytes: int, usedBytes: int, thresholdPercent: real, nextResetAt: int)

  datatype Policy = Policy(smart: bool, currentID: string, currentSince: Option<int>, minimumDwell: int,
                           hysteresis: real)

  datatype Reason = ManualPriority | QuotaPacing | MinimumDwell | Hysteresis

  datatype Decision = Decision(nodeID: string, score: real, reason: Reason)

  function Threshold(n: ProxyNode): (t: real)
    ensures 0.0 < t <= 100.0
  {
    if n.thresholdPercent <= 0.0 || n.thresholdPercent > 100.0 then 100.0 else n.thresholdPercent
  }

  predicate Eligible(n: ProxyNode, now: int) {
    n.enabled && n.healthy && n.lastHeartbeatAt > 0 && now - n.lastHeartbeatAt <= HEARTBEAT_FRESHNESS
    && n.playbackHealthy && n.configSynced && n.ingressHealthy && n.secure
    && (n.quotaBytes == 0 || n.usedBytes as real * 100.0 < n.quotaBytes as real * Threshold(n))
  }

  function TimeRatio(n: ProxyNode, now: int): real {
    if n.nextResetAt <= 0 then 0.5
    else if n.nextResetAt <= now then 0.0
    else
      var ratio := (n.nextResetAt - now) as real / WHOLE_CYCLE;
      if ratio > 1.0 then 1.0 else ratio
  }

  function QuotaScore(n: ProxyNode, now: int): real {
    if n.quotaBytes <= 0 then 0.5
    else
      var limit := Limit(n);
      var remaining := (limit - n.usedBytes as real) / limit;
      0.5 + ((if remaining < 0.0 then 0.0 else remaining) - TimeRatio(n, now))
  }

  function Limit(n: ProxyNode): (l: real)
    requires n.quotaBytes > 0
    ensures l > 0.0
  {
    assert n.quotaBytes as real * Threshold(n) > 0.0;
    n.quotaBytes as real * Threshold(n) / 100.0
  }

  /** The node that serves now is given a small advantage. */
  function Weight(n: ProxyNode, currentID: string, now: int): real {
    QuotaScore(n, now) + if n.id == currentID then STICKINESS else 0.0
  }

  /** Ids are the keys of the node table. */
  ghost predicate Keyed(nodes: seq<ProxyNode>) {
    (forall i :: 0 <= i < |nodes| ==> nodes[i].id != "")
    && forall i, j :: 0 <= i < j < |nodes| ==> nodes[i].id != nodes[j].id
  }

  function Candidates(nodes: seq<ProxyNode>, now: int): seq<ProxyNode> {
    if nodes == [] then []
    else Candidates(nodes[..|nodes|-1], now) + if Eligible(nodes[|nodes|-1], now) then [nodes[|nodes|-1]] else []
  }

  lemma {:induction false} CandidatesAre(nodes: seq<ProxyNode>, now: int)
    ensures forall n :: n in Candidates(nodes, now) <==> n in nodes && Eligible(n, now)
    ensures Keyed(nodes) ==> Keyed(Candidates(nodes, now))
  {
    if nodes != [] {
      var front, last := nodes[..|nodes| - 1], nodes[|nodes| - 1];
      CandidatesAre(front, now);
      assert nodes == front + [last];
      if Keyed(nodes) {
        var kept := Candidates(front, now);
        forall i | 0 <= i < |kept| ensures kept[i].id != last.id {
          assert kept[i] in front;
          var j :| 0 <= j < |front| && front[j] == kept[i];
          assert nodes[j].id != nodes[|front|].id;
        }
      }
    }
  }

  // ---------- manual order ----------

  predicate TextLess(a: string, b: string) {
    b != [] && (a == [] || a[0] < b[0] || (a[0] == b[0] && TextLess(a[1..], b[1..])))
  }

  predicate Before(a: ProxyNode, b: ProxyNode) {
    if a.priority != b.priority then a.priority < b.priority else TextLess(a.name, b.name)
  }

  lemma {:induction false} TextLessOrders(a: string, b: string, c: string)
    ensures !TextLess(a, a)
    ensures TextLess(a, b) && !TextLess(c, b) ==> TextLess(a, c)
  {
    if a != [] { TextLessOrders(a[1..], if b == [] then b else b[1..], if c == [] then c else c[1..]); }
  }

  lemma BeforeOrders(a: ProxyNode, b: ProxyNode, c: ProxyNode)
    ensures !Before(a, a)
    ensures Before(a, b) && !Before(c, b) ==> Before(a, c)
  {
    TextLessOrders(a.name, b.name, c.name);
  }

  function Insert(n: ProxyNode, s: seq<ProxyNode>): seq<ProxyNode> {
    if s == [] || !Before(s[0], n) then [n] + s else [s[0]] + Insert(n, s[1..])
  }

  /** Stable: equal nodes keep their order. */
  function SortStable(s: seq<ProxyNode>): seq<ProxyNode> {
    if s == [] then [] else Insert(s[0], SortStable(s[1..]))
  }

  /** Nothing comes before it, and nothing as good was listed earlier. */
  ghost predicate FirstInOrder(s: seq<ProxyNode>, i: nat) {
    i < |s| && (forall j :: 0 <= j < |s| ==> !Before(s[j], s[i])) && forall j :: 0 <= j < i ==> Before(s[i], s[j])
  }

  lemma {:induction false} SortedHead(s: seq<ProxyNode>) returns (i: nat)
    requires s != []
    ensures SortStable(s) != [] && FirstInOrder(s, i) && SortStable(s)[0] == s[i]
  {
    i := 0;
    BeforeOrders(s[0], s[0], s[0]);
    if |s| > 1 {
      var rest := SortedHead(s[1..]);
      var head := s[1..][rest];
      forall j | 1 <= j < |s| ensures !Before(s[j], head) && (j <= rest ==> Before(head, s[j])) {
        assert s[j] == s[1..][j - 1];
      }
      if Before(head, s[0]) {
        i := rest + 1;
        BeforeOrders(head, s[0], head);
        BeforeAsymmetric(head, s[0]);
      } else {
        forall j | 0 <= j < |s| ensures !Before(s[j], s[0]) {
          BeforeOrders(s[j], s[0], head);
        }
      }
    }
  }

  lemma BeforeAsymmetric(a: ProxyNode, b: ProxyNode)
    requires Before(a, b)
    ensures !Before(b, a)
  {
    TextLessAsymmetric(a.name, b.name);
  }

  lemma {:induction false} TextLessAsymmetric(a: string, b: string)
    ensures TextLess(a, b) ==> !TextLess(b, a)
  {
    if a != [] && b != [] { TextLessAsymmetric(a[1..], b[1..]); }
  }

  // ---------- smart choice ----------

  ghost predicate BestTier(s: seq<ProxyNode>, priority: int) {
    (exists i :: 0 <= i < |s| && s[i].priority == priority) && forall i :: 0 <= i < |s| ==> priority <= s[i].priority
  }

  /** The first of the best tier with the greatest weight, among the first `n`. */
  ghost predicate Leads(s: seq<ProxyNode>, currentID: string, now: int, priority: int, n: nat, i: nat) {
    i < n <= |s| && s[i].priority == priority
    && (forall j :: 0 <= j < n && s[j].priority == priority ==>
          Weight(s[j], currentID, now) <= Weight(s[i], currentID, now))
    && forall j :: 0 <= j < i && s[j].priority == priority ==>
         Weight(s[j], currentID, now) < Weight(s[i], currentID, now)
  }

  /** What selecting means: which candidate, by which rule. */
  ghost predicate Chosen(s: seq<ProxyNode>, smart: bool, currentID: string, now: int, i: nat) {
    i < |s| && if smart then exists p :: BestTier(s, p) && Leads(s, currentID, now, p, |s|, i) else FirstInOrder(s, i)
  }

  lemma ChosenIsUnique(s: seq<ProxyNode>, smart: bool, currentID: string, now: int, i: nat, j: nat)
    requires Chosen(s, smart, currentID, now, i) && Chosen(s, smart, currentID, now, j)
    ensures i == j
  {
    if smart {
      var p :| BestTier(s, p) && Leads(s, currentID, now, p, |s|, i);
      var q :| BestTier(s, q) && Leads(s, currentID, now, q, |s|, j);
      assert p <= s[j].priority && q <= s[i].priority;
    }
  }

  /** Once chosen, being the current node only helps: it stays chosen. */
  lemma ChosenStays(s: seq<ProxyNode>, smart: bool, currentID: string, now: int, i: nat)
    requires Keyed(s) && Chosen(s, smart, currentID, now, i)
    ensures Chosen(s, smart, s[i].id, now, i)
  {
    if smart && s[i].id != currentID {
      var p :| BestTier(s, p) && Leads(s, currentID, now, p, |s|, i);
      forall j | 0 <= j < |s| && j != i && s[j].priority == p
        ensures Weight(s[j], s[i].id, now) < Weight(s[i], s[i].id, now)
      {
        assert Weight(s[j], currentID, now) <= Weight(s[i], currentID, now);
        assert s[j].id != s[i].id;
      }
      assert Leads(s, s[i].id, now, p, |s|, i);
    }
  }

  function DecisionOf(n: ProxyNode, smart: bool, currentID: string, now: int): Decision {
    if smart then Decision(n.id, Weight(n, currentID, now), QuotaPacing) else Decision(n.id, 1.0, ManualPriority)
  }

  /** A decision for the chosen candidate. */
  ghost predicate IsChoice(s: seq<ProxyNode>, smart: bool, currentID: string, now: int, d: Decision) {
    exists i :: 0 <= i < |s| && Chosen(s, smart, currentID, now, i) && d == DecisionOf(s[i], smart, currentID, now)
  }

  /** The choice without hysteresis. */
  method Select(nodes: seq<ProxyNode>, smart: bool, currentID: string, now: int) returns (d: Option<Decision>)
    requires Keyed(nodes)
    ensures d.None? <==> Candidates(nodes, now) == []
    ensures d.Some? ==> IsChoice(Candidates(nodes, now), smart, currentID, now, d.value)
  {
    var candidates: seq<ProxyNode> := [];
    for i := 0 to |nodes|
      invariant candidates == Candidates(nodes[..i], now)
    {
      assert nodes[..i + 1][..i] == nodes[..i];
      if Eligible(nodes[i], now) { candidates := candidates + [nodes[i]]; }
    }
    assert nodes[..|nodes|] == nodes;
    CandidatesAre(nodes, now);
    if candidates == [] { return None; }
    if smart {
      d := SelectSmart(candidates, currentID, now);
    } else {
      ghost var at := SortedHead(candidates);
      assert Chosen(candidates, false, currentID, now, at);
      d := Some(DecisionOf(SortStable(candidates)[0], false, currentID, now));
    }
  }

  method MinimumPriority(s: seq<ProxyNode>) returns (minimum: int)
    requires s != []
    ensures BestTier(s, minimum)
  {
    minimum := s[0].priority;
    for i := 1 to |s|
      invariant BestTier(s[..i], minimum)
    {
      assert s[..i + 1] == s[..i] + [s[i]];
      if s[i].priority < minimum {
        minimum := s[i].priority;
        assert s[..i + 1][i].priority == minimum;
      } else {
        ghost var k :| 0 <= k < i && s[..i][k].priority == minimum;
        assert s[..i + 1][k].priority == minimum;
      }
    }
    assert s[..|s|] == s;
  }

  method SelectSmart(s: seq<ProxyNode>, currentID: string, now: int) returns (d: Option<Decision>)
    requires Keyed(s) && s != []
    ensures d.Some? && IsChoice(s, true, currentID, now, d.value)
  {
    var minimum := MinimumPriority(s);
    ghost var at := 0;
    var best := Decision("", 0.0, QuotaPacing);
    for i := 0 to |s|
      invariant best.nodeID == "" ==> forall j :: 0 <= j < i ==> s[j].priority != minimum
      invariant best.nodeID != "" ==>
                Leads(s, currentID, now, minimum, i, at) && best == DecisionOf(s[at], true, currentID, now)
    {
      if s[i].priority != minimum { continue; }
      var score := QuotaScore(s[i], now);
      if s[i].id == currentID { score := score + STICKINESS; }
      if best.nodeID == "" || score > best.score {
        best, at := Decision(s[i].id, score, QuotaPacing), i;
      }
    }
    assert Chosen(s, true, currentID, now, at);
    d := Some(best);
  }

  // ---------- hysteresis ----------

  function Find(nodes: seq<ProxyNode>, id: string): Option<ProxyNode> {
    if nodes == [] then None else if nodes[0].id == id then Some(nodes[0]) else Find(nodes[1..], id)
  }

  predicate Dwelling(p: Policy, now: int) {
    p.minimumDwell > 0 && p.currentSince.Some? && now - p.currentSince.value < p.minimumDwell
  }

  /** A healthy current node is kept while it dwells and when the other is hardly better. */
  function Hold(nodes: seq<ProxyNode>, p: Policy, now: int, d: Decision, current: ProxyNode): Decision {
    if Dwelling(p, now) then Decision(p.currentID, 0.0, MinimumDwell)
    else if Find(nodes, d.nodeID).Some? && Find(nodes, d.nodeID).value.priority < current.priority then d
    else if d.score - (QuotaScore(current, now) + STICKINESS) < p.hysteresis
      then Decision(p.currentID, QuotaScore(current, now) + STICKINESS, Hysteresis)
    else d
  }

  /** What hysteresis makes of the choice. */
  function Settle(nodes: seq<ProxyNode>, p: Policy, now: int, d: Decision): Decision {
    var current := Find(nodes, p.currentID);
    if p.currentID == "" || current.None? || !Eligible(current.value, now) || d.nodeID == p.currentID || !p.smart then d
    else Hold(nodes, p, now, d, current.value)
  }

  method FindNode(nodes: seq<ProxyNode>, id: string) returns (n: Option<ProxyNode>)
    ensures n == Find(nodes, id)
  {
    var i := 0;
    assert nodes[0..] == nodes;
    while i < |nodes|
      invariant i <= |nodes| && Find(nodes, id) == Find(nodes[i..], id)
    {
      assert nodes[i..][1..] == nodes[i + 1..];
      if nodes[i].id == id { return Some(nodes[i]); }
      i := i + 1;
    }
    return None;
  }

  /** Everything the answer may be, given nodes, policy and time. */
  ghost predicate Answers(nodes: seq<ProxyNode>, p: Policy, now: int, d: Decision) {
    var s := Candidates(nodes, now);
    exists i :: 0 <= i < |s| && Chosen(s, p.smart, p.currentID, now, i)
                && d == Settle(nodes, p, now, DecisionOf(s[i], p.smart, p.currentID, now))
  }

  method SelectWithPolicy(nodes: seq<ProxyNode>, p: Policy, now: int) returns (d: Option<Decision>)
    requires Keyed(nodes)
    ensures d.None? <==> Candidates(nodes, now) == []
    ensures d.Some? ==> Answers(nodes, p, now, d.value)
  {
    d := Select(nodes, p.smart, p.currentID, now);
    if d.None? || p.currentID == "" { return; }
    ghost var chosen := d.value;
    var current := FindNode(nodes, p.currentID);
    if current.None? || !Eligible(current.value, now) || d.value.nodeID == p.currentID { return; }
    if p.smart {
      d := Some(Hold(nodes, p, now, d.value, current.value));
    }
    assert d.value == Settle(nodes, p, now, chosen);
  }

  lemma {:induction false} FoundIsListed(nodes: seq<ProxyNode>, id: string)
    ensures Find(nodes, id).Some? ==> Find(nodes, id).value in nodes && Find(nodes, id).value.id == id
  {
    if nodes != [] { FoundIsListed(nodes[1..], id); }
  }

  /** Whatever is answered can serve. */
  lemma AnswerIsEligible(nodes: seq<ProxyNode>, p: Policy, now: int, d: Decision)
    requires Answers(nodes, p, now, d)
    ensures exists n <- nodes :: n.id == d.nodeID && Eligible(n, now)
  {
    var s := Candidates(nodes, now);
    var i :| 0 <= i < |s| && Chosen(s, p.smart, p.currentID, now, i)
             && d == Settle(nodes, p, now, DecisionOf(s[i], p.smart, p.currentID, now));
    CandidatesAre(nodes, now);
    FoundIsListed(nodes, p.currentID);
    assert s[i] in s;
  }

  /** Smart selection never leaves the best tier that has an eligible node. */
  lemma SmartKeepsTier(nodes: seq<ProxyNode>, currentID: string, now: int, i: nat, n: ProxyNode)
    requires i < |Candidates(nodes, now)| && Chosen(Candidates(nodes, now), true, currentID, now, i)
    requires n in nodes && Eligible(n, now)
    ensures Candidates(nodes, now)[i].priority <= n.priority
  {
    CandidatesAre(nodes, now);
    assert n in Candidates(nodes, now);
  }

  lemma {:induction false} FindKeyed(nodes: seq<ProxyNode>, n: ProxyNode)
    requires Keyed(nodes) && n in nodes
    ensures Find(nodes, n.id) == Some(n)
  {
    if nodes[0] == n {
    } else {
      var j :| 1 <= j < |nodes| && nodes[j] == n;
      assert nodes[1..][j - 1] == n;
      FindKeyed(nodes[1..], n);
    }
  }

  /** Hysteresis leaves the best tier for one reason only, the dwell of an eligible current node;
      and while it dwells such a node is kept, whatever its tier. */
  lemma TierIsLeftOnlyToDwell(nodes: seq<ProxyNode>, p: Policy, now: int, d: Decision, n: ProxyNode, better: ProxyNode)
    requires Keyed(nodes) && p.smart && Answers(nodes, p, now, d) && n in nodes && n.id == d.nodeID
    requires better in nodes && Eligible(better, now)
    ensures better.priority < n.priority ==> d.nodeID == p.currentID && Dwelling(p, now)
    ensures n.id == p.currentID || !Dwelling(p, now) || Find(nodes, p.currentID).None? || p.currentID == ""
            || !Eligible(Find(nodes, p.currentID).value, now)
  {
    var s := Candidates(nodes, now);
    CandidatesAre(nodes, now);
    hide Chosen, Eligible, Candidates, Weight, QuotaScore, Keyed;
    var i :| 0 <= i < |s| && Chosen(s, p.smart, p.currentID, now, i)
             && d == Settle(nodes, p, now, DecisionOf(s[i], p.smart, p.currentID, now));
    assert s[i] in s;
    SmartKeepsTier(nodes, p.currentID, now, i, better);
    FindKeyed(nodes, s[i]);
    FindKeyed(nodes, n);
  }

  /** The same question again, with the answer installed; the dwell starts anew only if it changed. */
  ghost predicate Installed(p: Policy, d: Decision, q: Policy) {
    q.smart == p.smart && q.currentID == d.nodeID && q.minimumDwell == p.minimumDwell && q.hysteresis == p.hysteresis
    && (d.nodeID == p.currentID ==> q.currentSince == p.currentSince)
  }

  /** Asking again changes nothing: the answer is stable. */
  lemma AnswerIsStable(nodes: seq<ProxyNode>, p: Policy, now: int, d: Decision, q: Policy, e: Decision)
    requires Keyed(nodes) && Answers(nodes, p, now, d) && Installed(p, d, q) && Answers(nodes, q, now, e)
    ensures e.nodeID == d.nodeID
  {
    var s := Candidates(nodes, now);
    CandidatesAre(nodes, now);
    hide Chosen, Eligible, Candidates, Weight, QuotaScore;
    var i :| 0 <= i < |s| && Chosen(s, p.smart, p.currentID, now, i)
             && d == Settle(nodes, p, now, DecisionOf(s[i], p.smart, p.currentID, now));
    var j :| 0 <= j < |s| && Chosen(s, q.smart, q.currentID, now, j)
             && e == Settle(nodes, q, now, DecisionOf(s[j], q.smart, q.currentID, now));
    if d.nodeID == p.currentID {
      ChosenIsUnique(s, p.smart, p.currentID, now, i, j);
    } else {
      ChosenStays(s, p.smart, p.currentID, now, i);
      ChosenIsUnique(s, p.smart, s[i].id, now, i, j);
    }
  }
}
