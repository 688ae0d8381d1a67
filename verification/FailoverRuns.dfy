/** What holds over whole runs of the failover controller. */
module FailoverRuns {
  import opened Wrappers
  import opened FailoverPolicy
  import opened FailoverController

  // ---------- switch pacing ----------

  function SwitchesWithin(events: seq<Event>, lo: int, hi: int): nat {
    if events == [] then 0
    else
      var e := events[|events|-1];
      SwitchesWithin(events[..|events|-1], lo, hi) + if e.kind == NodeSwitched && lo <= e.at <= hi then 1 else 0
  }

  lemma {:induction false} WithinIsFewer(events: seq<Event>, lo: int, hi: int, since: int)
    requires since <= lo
    ensures SwitchesWithin(events, lo, hi) <= Switches(events, since)
  {
    if events != [] { WithinIsFewer(events[..|events|-1], lo, hi, since); }
  }

  /** Any interval as long as the window, in which only automatic switches of this process fell,
      holds at most the configured number of them. */
  lemma {:induction false} WindowBound(events: seq<Event>, base: nat, cfg: Config, lo: int)
    requires PacedFrom(events, base, cfg) && cfg.maxSwitches > 0
    requires forall i :: 0 <= i < |events| && events[i].kind == NodeSwitched && lo <= events[i].at <= lo + cfg.window
                         ==> base <= i && events[i].mode == Auto
    ensures SwitchesWithin(events, lo, lo + cfg.window) <= cfg.maxSwitches
  {
    if events != [] {
      var j := |events| - 1;
      var most, e := events[..j], events[j];
      if e.kind == NodeSwitched && lo <= e.at <= lo + cfg.window {
        assert PacedAt(events, base, cfg, j);
        WithinIsFewer(most, lo, lo + cfg.window, e.at - cfg.window);
      } else {
        PacedPrefix(events, base, cfg, j);
        WindowBound(most, base, cfg, lo);
      }
    }
  }

  lemma PacedPrefix(events: seq<Event>, base: nat, cfg: Config, k: nat)
    requires PacedFrom(events, base, cfg) && k <= |events|
    ensures PacedFrom(events[..k], base, cfg)
  {
    forall j | base <= j < k && events[j].kind == NodeSwitched && events[j].mode == Auto
      ensures PacedAt(events[..k], base, cfg, j)
    {
      assert PacedAt(events, base, cfg, j) && events[..k][..j] == events[..j];
    }
  }

  lemma {:induction false} LastSwitchIs(events: seq<Event>, base: nat, i: nat)
    requires base <= i < |events| && events[i].kind == NodeSwitched
    requires forall m :: i < m < |events| ==> events[m].kind != NodeSwitched
    ensures LastSwitch(events, base) == Some(events[i].at)
  {
    if i < |events| - 1 { LastSwitchIs(events[..|events|-1], base, i); }
  }

  /** An automatic switch comes at least the cooldown after the switch before it. */
  lemma CooldownBetween(events: seq<Event>, base: nat, cfg: Config, i: nat, j: nat)
    requires PacedFrom(events, base, cfg) && base <= i < j < |events|
    requires events[i].kind == NodeSwitched && events[j].kind == NodeSwitched && events[j].mode == Auto
    requires forall m :: i < m < j ==> events[m].kind != NodeSwitched
    ensures events[j].at >= events[i].at + cfg.cooldown
  {
    assert PacedAt(events, base, cfg, j);
    LastSwitchIs(events[..j], base, i);
  }

  // ---------- across a restart ----------

  lemma {:induction false} TailOfLog(events: seq<Event>, n: nat, since: int)
    requires n <= |events|
    ensures Switches(events[n..], since) <= Switches(events, since)
    ensures LastSwitch(events[n..], 0).Some? ==> LastSwitch(events[n..], 0) == LastSwitch(events, 0)
  {
    if n < |events| {
      assert events[n..][..|events| - 1 - n] == events[..|events|-1][n..];
      TailOfLog(events[..|events|-1], n, since);
    }
  }

  /** A restart loads the last events only.  They are paced if the whole log was, and the cooldown
      of the last switch is still theirs, so pacing goes on. */
  lemma LoadedTailIsPaced(events: seq<Event>, n: nat, s: State, cfg: Config)
    requires n <= |events| && PacedFrom(events, 0, cfg) && CoolingSince(s, events, 0, cfg)
    ensures PacedFrom(events[n..], 0, cfg) && CoolingSince(s, events[n..], 0, cfg)
  {
    TailOfLog(events, n, 0);
    hide Switches, LastSwitch;
    var tail := events[n..];
    forall j | 0 <= j < |tail| && tail[j].kind == NodeSwitched && tail[j].mode == Auto
      ensures PacedAt(tail, 0, cfg, j)
    {
      assert PacedAt(events, 0, cfg, n + j);
      assert events[..n + j][n..] == tail[..j];
      TailOfLog(events[..n + j], n, tail[j].at - cfg.window);
    }
  }

  // ---------- changes of the active node ----------

  /** The j-th event makes another node active. */
  predicate Changes(start: string, events: seq<Event>, from: nat, j: nat)
    requires j < |events|
  {
    from <= j && Moves(events[j]) && events[j].to != ActiveAfter(start, events[..j], from)
  }

  /** Which is the only way it changes: by a switch or by a DNS commit. */
  lemma OnlyMovesChange(start: string, events: seq<Event>, from: nat, j: nat)
    requires j < |events|
    ensures ActiveAfter(start, events[..j + 1], from) != ActiveAfter(start, events[..j], from)
            <==> Changes(start, events, from, j)
  {
    assert events[..j + 1][..j] == events[..j];
  }

  /** Changes of the active node in a stretch of time, of one kind of event. */
  function ChangesWithin(start: string, events: seq<Event>, from: nat, lo: int, hi: int, kind: EventKind): nat {
    if events == [] then 0
    else
      var j := |events| - 1;
      ChangesWithin(start, events[..j], from, lo, hi, kind)
      + if Changes(start, events, from, j) && events[j].kind == kind && lo <= events[j].at <= hi then 1 else 0
  }

  lemma {:induction false} ChangesAreSwitches(start: string, events: seq<Event>, from: nat, lo: int, hi: int)
    ensures ChangesWithin(start, events, from, lo, hi, NodeSwitched) <= SwitchesWithin(events, lo, hi)
  {
    if events != [] {
      hide ActiveAfter;
      ChangesAreSwitches(start, events[..|events|-1], from, lo, hi);
    }
  }

  /** Changes of the active node in a stretch of time. */
  function AllChangesWithin(start: string, events: seq<Event>, from: nat, lo: int, hi: int): nat {
    if events == [] then 0
    else
      var j := |events| - 1;
      AllChangesWithin(start, events[..j], from, lo, hi)
      + if Changes(start, events, from, j) && lo <= events[j].at <= hi then 1 else 0
  }

  lemma {:induction false} TwoKindsOfChange(start: string, events: seq<Event>, from: nat, lo: int, hi: int)
    ensures AllChangesWithin(start, events, from, lo, hi)
            == ChangesWithin(start, events, from, lo, hi, NodeSwitched)
               + ChangesWithin(start, events, from, lo, hi, DNSSwitchCommitted)
  {
    if events != [] {
      hide ActiveAfter;
      TwoKindsOfChange(start, events[..|events|-1], from, lo, hi);
    }
  }

  /** In any interval as long as the window, with automatic switches only, the node changes at most
      the configured number of times, and once more for every DNS commit that changes it. */
  lemma ChangeBound(start: string, events: seq<Event>, from: nat, base: nat, cfg: Config, lo: int)
    requires PacedFrom(events, base, cfg) && cfg.maxSwitches > 0
    requires forall i :: 0 <= i < |events| && events[i].kind == NodeSwitched && lo <= events[i].at <= lo + cfg.window
                         ==> base <= i && events[i].mode == Auto
    ensures AllChangesWithin(start, events, from, lo, lo + cfg.window)
            <= cfg.maxSwitches + ChangesWithin(start, events, from, lo, lo + cfg.window, DNSSwitchCommitted)
  {
    WindowBound(events, base, cfg, lo);
    ChangesAreSwitches(start, events, from, lo, lo + cfg.window);
    TwoKindsOfChange(start, events, from, lo, lo + cfg.window);
  }

  /** The DNS commits are not paced: here, at one and the same moment, a commit makes the fallback
      active and an automatic switch, refused by nothing, makes the primary active again. */
  lemma DNSCommitsAreNotPaced(nodes: map<string, Node>, s: State, cfg: Config, primary: Node)
    requires s.active == "p" && s.mode == Auto && s.cooldownUntil == None && cfg.maxSwitches > 0
    requires "p" in nodes && nodes["p"].enabled && !nodes["p"].maintenance
    ensures var commit := Event(1, 100, DNSSwitchCommitted, "", "f", Auto, true);
            var switch := Event(2, 100, NodeSwitched, "f", "p", Auto, true);
            var t := DNSCommitted(s, "f", 100, primary);
            && t.active == "f" && Refusal(nodes, t, [commit], cfg, "p", 100).Nil?
            && Switched(t, "p", 100, cfg.cooldown, primary).active == "p"
            && PacedFrom([commit, switch], 0, cfg)
            && Changes("p", [commit, switch], 0, 0) && Changes("p", [commit, switch], 0, 1)
  {
    var commit := Event(1, 100, DNSSwitchCommitted, "", "f", Auto, true);
    var switch := Event(2, 100, NodeSwitched, "f", "p", Auto, true);
    assert [commit, switch][..1] == [commit] && [commit, switch][..0] == [] && [commit][..0] == [];
    assert Switches([commit], 100 - cfg.window) == 0 && LastSwitch([commit], 0) == None;
    assert PacedAt([commit, switch], 0, cfg, 1);
  }

  // ---------- billing hysteresis ----------

  datatype World = World(nodes: map<string, Node>, state: State, events: seq<Event>)

  datatype Op =
    | Health(id: string, success: bool)
    | Traffic(sample: TrafficSample, at: int)
    | Maintenance(id: string, on: bool)
    | Mode(mode: FailoverPolicy.Mode, at: int)
    | Commit(node: string, at: int)
    | CommitFailed(node: string, at: int)
    | CommitRejected(node: string, at: int)
    | Tick(now: int)

  /** One operation whose writers succeed; a tick evaluates and applies at one moment. */
  function Do(w: World, op: Op, p: string, f: string, cfg: Config, cal: Calendar): World
    requires p in w.nodes && f in w.nodes
  {
    match op
    case Health(id, success) =>
      if id in w.nodes then w.(nodes := w.nodes[id := RecordHealth(w.nodes[id], success, cfg.failureThreshold)]) else w
    case Traffic(sample, at) =>
      if sample.nodeID in w.nodes && !InvalidSample(sample)
      then w.(nodes := w.nodes[sample.nodeID := w.nodes[sample.nodeID].(traffic := NormalSample(sample, at))]) else w
    case Maintenance(id, on) =>
      if id in w.nodes then w.(nodes := w.nodes[id := w.nodes[id].(maintenance := on)]) else w
    case Mode(mode, at) =>
      w.(state := w.state.(mode := mode),
         events := w.events + [Event(|w.events| + 1, at, ModeChanged, "", "", mode, true)])
    case CommitFailed(node, at) =>
      w.(state := w.state.(reconcile := true),
         events := w.events + [Event(|w.events| + 1, at, DNSSwitchFailed, "", node, w.state.mode, false)])
    case CommitRejected(node, at) =>
      w.(events := w.events + [Event(|w.events| + 1, at, SwitchRejected, "", node, w.state.mode, false)])
    case Commit(node, at) =>
      w.(state := DNSCommitted(w.state, node, at, w.nodes[p]),
         events := w.events + [Event(|w.events| + 1, at, DNSSwitchCommitted, "", node, w.state.mode, true)])
    case Tick(now) =>
      var d := Decide(w.nodes[p], w.nodes[f], w.state, w.events, cfg, now, cal);
      var refusal := Refusal(w.nodes, w.state, w.events, cfg, d.node, now);
      if refusal.NodeNotEligible? then
        w.(events := w.events + [Event(|w.events| + 1, now, SwitchRejected, "", d.node, w.state.mode, false)])
      else if refusal.Nil? && d.node != w.state.active then
        w.(state := Switched(w.state, d.node, now, cfg.cooldown, w.nodes[p]),
           events := w.events + [Event(|w.events| + 1, now, NodeSwitched, w.state.active, d.node, w.state.mode, true)])
      else w
  }

  /** The two role holders of a world, by their ids. */
  predicate Holders(w: World, p: string, f: string) {
    && p != f && p in w.nodes && f in w.nodes && p != "" && f != ""
    && w.nodes[p].id == p && w.nodes[p].role == Primary && w.nodes[f].id == f && w.nodes[f].role == Fallback
  }

  /** An operation whose writer fails leaves the world as it was. */
  ghost predicate IsRun(ws: seq<World>, ops: seq<Op>, p: string, f: string, cfg: Config, cal: Calendar) {
    && |ws| == |ops| + 1
    && (forall k :: 0 <= k < |ws| ==> Holders(ws[k], p, f))
    && (forall k :: 0 <= k < |ops| ==> ws[k+1] == ws[k] || ws[k+1] == Do(ws[k], ops[k], p, f, cfg, cal))
  }

  /** No other node of their roles ranks as high. */
  predicate Leading(w: World, p: string, f: string)
    requires p in w.nodes && f in w.nodes
  {
    && (forall id <- w.nodes :: id != "" && w.nodes[id].id == id)
    && (forall id <- w.nodes :: w.nodes[id].role == Primary && id != p ==> w.nodes[id].priority > w.nodes[p].priority)
    && (forall id <- w.nodes :: w.nodes[id].role == Fallback && id != f ==> w.nodes[id].priority > w.nodes[f].priority)
  }

  /** In whatever order the nodes are listed, the controller sees these two holders. */
  lemma HoldersAreFound(list: seq<Node>, w: World, p: string, f: string)
    requires Enumerates(list, w.nodes) && Holders(w, p, f) && Leading(w, p, f)
    ensures FindRole(list, Primary) == w.nodes[p] && FindRole(list, Fallback) == w.nodes[f]
  {
    LeaderIsFound(list, w.nodes[p]);
    LeaderIsFound(list, w.nodes[f]);
  }

  /** What a controller looks like from outside. */
  ghost function WorldOf(c: Controller): World
    reads c
  {
    World(c.nodes, c.state, c.events)
  }

  /** One round of the scheduler on a controller, at one reading of its clock: a step of the run,
      or nothing when a writer fails. */
  method RunTick(c: Controller, ghost p: string, ghost f: string)
    requires c.Valid() && Holders(WorldOf(c), p, f) && Leading(WorldOf(c), p, f)
    modifies c
    ensures c.Valid() && c.clock >= old(c.clock)
    ensures WorldOf(c) == old(WorldOf(c)) || WorldOf(c) == Do(old(WorldOf(c)), Tick(c.clock), p, f, c.cfg, c.cal)
  {
    hide Controller.Valid, Decide, Refusal, Switched, FindRole, Leading;
    var now := c.Now();
    ghost var w := WorldOf(c);
    var decision, seen := c.EvaluateNow();
    HoldersAreFound(seen, w, p, f);
    var err, list := c.ApplyDecisionNow(decision.node);
    HoldersAreFound(list, w, p, f);
  }

  function Key(w: World, p: string): Option<int>
    requires p in w.nodes
  {
    KnownCycle(w.nodes[p].traffic)
  }

  /** Known samples of the primary carry non-decreasing cycle keys. */
  ghost predicate KeysRise(ws: seq<World>, p: string)
    requires forall k :: 0 <= k < |ws| ==> p in ws[k].nodes
  {
    forall a, b :: 0 <= a <= b < |ws| && Key(ws[a], p).Some? && Key(ws[b], p).Some? ==>
      Key(ws[a], p).value <= Key(ws[b], p).value
  }

  /** Automatic mode throughout, and the fallback always able to serve. */
  ghost predicate Steady(ws: seq<World>, f: string) {
    forall k :: 0 <= k < |ws| ==> f in ws[k].nodes && Serviceable(ws[k].nodes[f]) && ws[k].state.mode == Auto
  }

  /** A tick hands back to the primary. */
  predicate Returns(ws: seq<World>, ops: seq<Op>, k: nat, p: string, f: string) {
    k + 1 < |ws| && k < |ops| && ops[k].Tick? && ws[k].state.active == f && ws[k+1].state.active == p
  }

  lemma DecideOnReturn(w: World, now: int, p: string, f: string, cfg: Config, cal: Calendar)
    requires Holders(w, p, f) && w.state.mode == Auto && w.state.active == f && Serviceable(w.nodes[f])
    requires Key(w, p).Some? || !cfg.allowUnknownRecovery
    requires Decide(w.nodes[p], w.nodes[f], w.state, w.events, cfg, now, cal).node == p
    ensures Key(w, p).Some? && w.state.cycleKey.Some? && Key(w, p) != w.state.cycleKey
    ensures w.nodes[p].resetDay > 0 ==> Key(w, p) == Some(cal(now, w.nodes[p].resetDay, w.nodes[p].zone))
  {
    ReturnNeedsNewCycle(w.nodes[p], w.nodes[f], PolicyState(w.state, w.nodes[p]), cfg, now, cal);
  }

  /** A return remembers the primary's cycle exactly when its sample is known, and then it is one
      the state did not hold; otherwise what was remembered stays. */
  lemma ReturnAdopts(w: World, now: int, p: string, f: string, cfg: Config, cal: Calendar)
    requires Holders(w, p, f) && w.state.mode == Auto && w.state.active == f && Serviceable(w.nodes[f])
    requires Do(w, Tick(now), p, f, cfg, cal).state.active == p
    ensures Do(w, Tick(now), p, f, cfg, cal).state.cycleKey == w.state.cycleKey <==> Key(w, p).None?
    ensures Key(w, p).Some? ==>
              && Do(w, Tick(now), p, f, cfg, cal).state.cycleKey == Key(w, p)
              && (w.nodes[p].resetDay > 0 ==> Key(w, p) == Some(cal(now, w.nodes[p].resetDay, w.nodes[p].zone)))
    ensures !cfg.allowUnknownRecovery ==> Key(w, p).Some?
  {
    hide Decide;
    if Key(w, p).Some? || !cfg.allowUnknownRecovery {
      DecideOnReturn(w, now, p, f, cfg, cal);
    }
  }

  /** The remembered key was the primary's known key at some moment since. */
  ghost predicate KeySeenSince(ws: seq<World>, i: nat, k: nat, p: string)
    requires i <= k < |ws| && forall m :: 0 <= m < |ws| ==> p in ws[m].nodes
  {
    ws[k].state.cycleKey.Some? && exists a :: i <= a <= k && Key(ws[a], p) == ws[k].state.cycleKey
  }

  lemma KeyAfter(w: World, op: Op, p: string, f: string, cfg: Config, cal: Calendar)
    requires Holders(w, p, f)
    ensures Do(w, op, p, f, cfg, cal).state.cycleKey == w.state.cycleKey
            || (Key(w, p).Some? && Do(w, op, p, f, cfg, cal).state.cycleKey == Key(w, p))
  {
    hide Decide, Refusal;
  }

  lemma {:induction false} KeyStaysSeen(ws: seq<World>, ops: seq<Op>, i: nat, k: nat, p: string, f: string, cfg: Config,
                                        cal: Calendar)
    requires IsRun(ws, ops, p, f, cfg, cal) && Steady(ws, f) && Returns(ws, ops, i, p, f) && i < k < |ws|
    requires Key(ws[i], p).Some?
    ensures KeySeenSince(ws, i, k, p)
  {
    hide Do, Key, Serviceable;
    assert Holders(ws[i], p, f) && Holders(ws[k-1], p, f);
    assert forall m :: 0 <= m < |ws| ==> Holders(ws[m], p, f);
    if k == i + 1 {
      OneReturn(ws, ops, i, p, f, cfg, cal);
      assert Key(ws[i], p) == ws[k].state.cycleKey;
    } else {
      KeyStaysSeen(ws, ops, i, k - 1, p, f, cfg, cal);
      if ws[k] != ws[k-1] { KeyAfter(ws[k-1], ops[k-1], p, f, cfg, cal); }
    }
  }

  lemma OneReturn(ws: seq<World>, ops: seq<Op>, k: nat, p: string, f: string, cfg: Config, cal: Calendar)
    requires IsRun(ws, ops, p, f, cfg, cal) && Steady(ws, f) && Returns(ws, ops, k, p, f)
    ensures Key(ws[k], p).Some? <==> ws[k+1].state.cycleKey != ws[k].state.cycleKey
    ensures Key(ws[k], p).Some? ==>
              && ws[k+1].state.cycleKey == Key(ws[k], p)
              && (ws[k].nodes[p].resetDay > 0 ==>
                    Key(ws[k], p) == Some(cal(ops[k].now, ws[k].nodes[p].resetDay, ws[k].nodes[p].zone)))
    ensures !cfg.allowUnknownRecovery ==> Key(ws[k], p).Some?
  {
    hide Do, Key, Serviceable;
    assert Holders(ws[k], p, f);
    assert ws[k+1] != ws[k];
    ReturnAdopts(ws[k], ops[k].now, p, f, cfg, cal);
  }

  // ---------- what the state remembers ----------

  /** The key the primary's sample carries, known or not. */
  function Shown(w: World, p: string): Option<int>
    requires p in w.nodes
  {
    w.nodes[p].traffic.cycleKey
  }

  /** Automatic mode, and the fallback able to serve: a return is then a matter of hysteresis. */
  predicate Guarded(w: World, f: string) {
    f in w.nodes && Serviceable(w.nodes[f]) && w.state.mode == Auto
  }

  /** The known keys of a stretch of the run lie between two others. */
  ghost predicate KeysBetween(ws: seq<World>, p: string, h: nat, j: nat, lo: int, hi: int)
    requires h <= j <= |ws|
  {
    forall a :: h <= a < j && p in ws[a].nodes && Key(ws[a], p).Some? ==> lo <= Key(ws[a], p).value <= hi
  }

  lemma DecideShowsNewKey(w: World, now: int, p: string, f: string, cfg: Config, cal: Calendar)
    requires Holders(w, p, f) && Guarded(w, f) && w.state.active == f
    requires Decide(w.nodes[p], w.nodes[f], w.state, w.events, cfg, now, cal).node == p
    ensures Shown(w, p).Some? && Shown(w, p) != w.state.cycleKey
    ensures now >= cal(now, w.nodes[p].resetDay, w.nodes[p].zone) + cfg.resetGrace
    ensures w.nodes[p].resetDay > 0 ==> Shown(w, p) == Some(cal(now, w.nodes[p].resetDay, w.nodes[p].zone))
  {
    assert NewKnownCycle(w.nodes[p], PolicyState(w.state, w.nodes[p]), cfg, now, cal);
  }

  /** Whatever the quality of its sample, a return shows a cycle other than the remembered one,
      which with a reset day is the cycle of the clock, and some time after that cycle began. */
  lemma ReturnShowsNewKey(ws: seq<World>, ops: seq<Op>, k: nat, p: string, f: string, cfg: Config, cal: Calendar)
    requires IsRun(ws, ops, p, f, cfg, cal) && Returns(ws, ops, k, p, f) && Guarded(ws[k], f)
    ensures p in ws[k].nodes && Shown(ws[k], p).Some? && Shown(ws[k], p) != ws[k].state.cycleKey
    ensures ops[k].now >= cal(ops[k].now, ws[k].nodes[p].resetDay, ws[k].nodes[p].zone) + cfg.resetGrace
    ensures ws[k].nodes[p].resetDay > 0 ==>
              Shown(ws[k], p) == Some(cal(ops[k].now, ws[k].nodes[p].resetDay, ws[k].nodes[p].zone))
  {
    var w, now := ws[k], ops[k].now;
    assert Holders(w, p, f) && ws[k+1] != w;
    hide Decide, IsRun, Shown, Guarded;
    assert Decide(w.nodes[p], w.nodes[f], w.state, w.events, cfg, now, cal).node == p;
    DecideShowsNewKey(w, now, p, f, cfg, cal);
  }

  /** The remembered cycle changes when another node becomes active while the primary's sample is
      known, and then to that sample's; at no other time. */
  lemma TransitionRemembers(ws: seq<World>, ops: seq<Op>, k: nat, p: string, f: string, cfg: Config, cal: Calendar)
    requires IsRun(ws, ops, p, f, cfg, cal) && k < |ops|
    ensures p in ws[k].nodes
    ensures ws[k+1].state.cycleKey == if ws[k+1].state.active != ws[k].state.active && Key(ws[k], p).Some?
                                      then Key(ws[k], p) else ws[k].state.cycleKey
  {
    assert Holders(ws[k], p, f);
    hide Decide, Refusal, IsRun;
  }

  /** Once remembered, a cycle gives way only to one a known sample has shown since. */
  lemma {:induction false} MemoryHolds(ws: seq<World>, ops: seq<Op>, h: nat, k: nat, c: int, hi: int, p: string,
                                       f: string, cfg: Config, cal: Calendar)
    requires IsRun(ws, ops, p, f, cfg, cal) && h <= k < |ws|
    requires ws[h].state.cycleKey == Some(c) && c <= hi
    requires KeysBetween(ws, p, h, k, c, hi)
    ensures ws[k].state.cycleKey.Some? && c <= ws[k].state.cycleKey.value <= hi
  {
    assert |ws| == |ops| + 1;
    hide IsRun, Key;
    if h < k {
      MemoryHolds(ws, ops, h, k - 1, c, hi, p, f, cfg, cal);
      TransitionRemembers(ws, ops, k - 1, p, f, cfg, cal);
    }
  }

  /** The primary is never returned to in a cycle the state remembers, or has remembered, as long as
      known keys do not go back and are not ahead of the one a return shows.  Nothing is asked of the
      samples at either end, nor of mode and fallback before the return. */
  lemma SpentCycle(ws: seq<World>, ops: seq<Op>, h: nat, j: nat, c: int, p: string, f: string, cfg: Config,
                   cal: Calendar)
    requires IsRun(ws, ops, p, f, cfg, cal) && h <= j && Returns(ws, ops, j, p, f) && Guarded(ws[j], f)
    requires ws[h].state.cycleKey == Some(c)
    requires Shown(ws[j], p).Some? ==>
               c <= Shown(ws[j], p).value && KeysBetween(ws, p, h, j, c, Shown(ws[j], p).value)
    ensures Shown(ws[j], p).Some? && c < Shown(ws[j], p).value
    ensures ws[j].nodes[p].resetDay > 0 ==> c < cal(ops[j].now, ws[j].nodes[p].resetDay, ws[j].nodes[p].zone)
  {
    hide IsRun, Key, Guarded, KeysBetween;
    ReturnShowsNewKey(ws, ops, j, p, f, cfg, cal);
    MemoryHolds(ws, ops, h, j, c, Shown(ws[j], p).value, p, f, cfg, cal);
  }

  /** So where the primary is returned to in a cycle, no transition since was made on a known sample
      of that cycle: what makes a second return possible is that the cycle was never remembered. */
  lemma ReturnMeansForgotten(ws: seq<World>, ops: seq<Op>, i: nat, j: nat, p: string, f: string, cfg: Config,
                             cal: Calendar)
    requires IsRun(ws, ops, p, f, cfg, cal) && i <= j && Returns(ws, ops, j, p, f) && Guarded(ws[j], f)
    requires KeysRise(ws, p)
    requires Shown(ws[j], p).Some? ==>
               forall a :: i <= a < j && Key(ws[a], p).Some? ==> Key(ws[a], p).value <= Shown(ws[j], p).value
    ensures forall k :: i <= k < j && ws[k+1].state.active != ws[k].state.active ==> Key(ws[k], p) != Shown(ws[j], p)
  {
    ReturnShowsNewKey(ws, ops, j, p, f, cfg, cal);
    hide IsRun, Key, Guarded;
    forall k | i <= k < j && ws[k+1].state.active != ws[k].state.active ensures Key(ws[k], p) != Shown(ws[j], p) {
      if Key(ws[k], p) == Shown(ws[j], p) {
        TransitionRemembers(ws, ops, k, p, f, cfg, cal);
        SpentCycle(ws, ops, k + 1, j, Shown(ws[j], p).value, p, f, cfg, cal);
      }
    }
  }

  /** After a return on a known sample, the next return is into a strictly later billing cycle,
      whatever its own sample's quality and whatever happens in between. */
  lemma OneReturnAfterKnown(ws: seq<World>, ops: seq<Op>, i: nat, j: nat, p: string, f: string, cfg: Config,
                            cal: Calendar)
    requires IsRun(ws, ops, p, f, cfg, cal) && i < j && Returns(ws, ops, i, p, f) && Returns(ws, ops, j, p, f)
    requires Guarded(ws[i], f) && Guarded(ws[j], f)
    requires Key(ws[i], p).Some?
    requires Shown(ws[j], p).Some? ==> KeysBetween(ws, p, i, j, Key(ws[i], p).value, Shown(ws[j], p).value)
    ensures Shown(ws[j], p).Some? && Key(ws[i], p).value < Shown(ws[j], p).value
    ensures ws[i].nodes[p].resetDay > 0 && ws[j].nodes[p].resetDay > 0 ==>
              cal(ops[i].now, ws[i].nodes[p].resetDay, ws[i].nodes[p].zone)
              < cal(ops[j].now, ws[j].nodes[p].resetDay, ws[j].nodes[p].zone)
  {
    ReturnShowsNewKey(ws, ops, i, p, f, cfg, cal);
    ReturnShowsNewKey(ws, ops, j, p, f, cfg, cal);
    TransitionRemembers(ws, ops, i, p, f, cfg, cal);
    assert ws[i+1].state.cycleKey == Key(ws[i], p) == Shown(ws[i], p) by { assert Holders(ws[i], p, f); }
    hide IsRun, Guarded;
    SpentCycle(ws, ops, i + 1, j, Key(ws[i], p).value, p, f, cfg, cal);
  }

  /** Two returns on known samples fall into different, strictly later billing cycles, whatever
      happens in between: health, traffic, mode and maintenance updates, DNS commits, failing writers. */
  lemma OneReturnPerCycle(ws: seq<World>, ops: seq<Op>, i: nat, j: nat, p: string, f: string, cfg: Config,
                          cal: Calendar)
    requires IsRun(ws, ops, p, f, cfg, cal) && Steady(ws, f) && KeysRise(ws, p)
    requires i < j && Returns(ws, ops, i, p, f) && Returns(ws, ops, j, p, f)
    requires Key(ws[i], p).Some? && Key(ws[j], p).Some?
    ensures Key(ws[i], p).value < Key(ws[j], p).value
    ensures ws[i].nodes[p].resetDay > 0 && ws[j].nodes[p].resetDay > 0 ==>
              cal(ops[i].now, ws[i].nodes[p].resetDay, ws[i].nodes[p].zone)
              < cal(ops[j].now, ws[j].nodes[p].resetDay, ws[j].nodes[p].zone)
  {
    assert forall m :: 0 <= m < |ws| ==> Holders(ws[m], p, f);
    assert Shown(ws[j], p) == Key(ws[j], p);
    hide IsRun, Key, Shown, Serviceable;
    OneReturnAfterKnown(ws, ops, i, j, p, f, cfg, cal);
  }

  /** Which all returns are when recovery on unknown traffic is off. */
  lemma OneReturnPerCycleWhenKnown(ws: seq<World>, ops: seq<Op>, i: nat, j: nat, p: string, f: string, cfg: Config,
                                   cal: Calendar)
    requires IsRun(ws, ops, p, f, cfg, cal) && Steady(ws, f) && KeysRise(ws, p) && !cfg.allowUnknownRecovery
    requires i < j && Returns(ws, ops, i, p, f) && Returns(ws, ops, j, p, f)
    ensures Key(ws[i], p).Some? && Key(ws[j], p).Some? && Key(ws[i], p).value < Key(ws[j], p).value
  {
    hide IsRun, Steady, Key;
    OneReturn(ws, ops, i, p, f, cfg, cal);
    OneReturn(ws, ops, j, p, f, cfg, cal);
    OneReturnPerCycle(ws, ops, i, j, p, f, cfg, cal);
  }

  // ---------- recovery on unknown traffic ----------

  const BLIND := TrafficSample("p", Some(5), 0, 0, 0, 0, 0.0, Unknown, Some(0))
  const SPARE := Node("f", Fallback, true, false, 0, 0, "", Healthy, 0, 1, BLIND.(nodeID := "f"))
  const EAGER := Config(1, 1, 10, 85.0, 15.0, 1, false, true, 3, 1000)

  function MainNode(up: bool): Node {
    Node("p", Primary, true, false, 0, 0, "", if up then Healthy else HealthFailed,
         if up then 0 else 1, if up then 1 else 0, BLIND)
  }

  function BlindWorld(up: bool, active: string, last: Option<int>, events: seq<Event>): World {
    World(map["p" := MainNode(up), "f" := SPARE],
          State(active, active, "", Auto, if last.Some? then Some(last.value + 10) else None,
                last, last, Some(4), false),
          events)
  }

  function SwitchTo(k: nat, at: int, from: string, to: string): Event {
    Event(k, at, NodeSwitched, from, to, Auto, true)
  }

  /** One tick of the example. */
  lemma BlindTick(up: bool, last: Option<int>, events: seq<Event>, now: int, cal: Calendar)
    requires cal(now, 0, "") <= 0 && now > 0 && (last.Some? ==> now >= last.value + 10) && !Limited(events, EAGER, now)
    ensures var (from, to) := if up then ("f", "p") else ("p", "f");
            Do(BlindWorld(up, from, last, events), Tick(now), "p", "f", EAGER, cal)
            == BlindWorld(up, to, Some(now), events + [SwitchTo(|events| + 1, now, from, to)])
  {
    hide Limited;
    var (from, to) := if up then ("f", "p") else ("p", "f");
    var w := BlindWorld(up, from, last, events);
    assert Decide(w.nodes["p"], w.nodes["f"], w.state, w.events, EAGER, now, cal) == Decision(to, true);
  }

  const BACK := SwitchTo(1, 100, "f", "p")
  const AWAY := SwitchTo(2, 200, "p", "f")
  const AGAIN := SwitchTo(3, 300, "f", "p")

  const BLIND_OPS := [Tick(100), Health("p", false), Tick(200), Health("p", true), Tick(300)]

  const BLIND_WORLDS := [
    BlindWorld(true, "f", None, []), BlindWorld(true, "p", Some(100), [BACK]),
     BlindWorld(false, "p", Some(100), [BACK]),
    BlindWorld(false, "f", Some(200), [BACK, AWAY]), BlindWorld(true, "f", Some(200), [BACK, AWAY]),
    BlindWorld(true, "p", Some(300), [BACK, AWAY, AGAIN])]

  /** When unknown traffic is allowed as a reason to return, the cycle is not remembered, and the
      primary can be returned to twice in one cycle: here at both ends of five operations. */
  lemma UnknownTrafficReturnsTwice(cal: Calendar)
    requires cal(100, 0, "") <= 0 && cal(200, 0, "") <= 0 && cal(300, 0, "") <= 0
    ensures IsRun(BLIND_WORLDS, BLIND_OPS, "p", "f", EAGER, cal) && EAGER.allowUnknownRecovery
    ensures Returns(BLIND_WORLDS, BLIND_OPS, 0, "p", "f") && Returns(BLIND_WORLDS, BLIND_OPS, 4, "p", "f")
    ensures forall w <- BLIND_WORLDS ::
              w.nodes["p"].traffic == BLIND && Serviceable(w.nodes["f"])
              && w.state.mode == Auto && w.state.cycleKey == Some(4)
  {
    BlindRun(cal);
    hide IsRun;
  }

  lemma BlindRun(cal: Calendar)
    requires cal(100, 0, "") <= 0 && cal(200, 0, "") <= 0 && cal(300, 0, "") <= 0
    ensures IsRun(BLIND_WORLDS, BLIND_OPS, "p", "f", EAGER, cal)
  {
    hide Do;
    BlindTicks(cal);
    BlindChecks(cal);
  }

  lemma BlindTicks(cal: Calendar)
    requires cal(100, 0, "") <= 0 && cal(200, 0, "") <= 0 && cal(300, 0, "") <= 0
    ensures forall k :: k == 0 || k == 2 || k == 4 ==>
              BLIND_WORLDS[k + 1] == Do(BLIND_WORLDS[k], BLIND_OPS[k], "p", "f", EAGER, cal)
  {
    hide Do;
    assert Switches([], -900) == 0 && [BACK][..0] == [] && [BACK, AWAY][..1] == [BACK];
    assert Switches([BACK], -800) == 1 && Switches([BACK], -700) == 1 && Switches([BACK, AWAY], -700) == 2;
    BlindTick(true, None, [], 100, cal);
    BlindTick(false, Some(100), [BACK], 200, cal);
    BlindTick(true, Some(200), [BACK, AWAY], 300, cal);
    assert [] + [BACK] == [BACK] && [BACK] + [AWAY] == [BACK, AWAY] && [BACK, AWAY] + [AGAIN] == [BACK, AWAY, AGAIN];
  }

  lemma BlindChecks(cal: Calendar)
    ensures forall k :: k == 1 || k == 3 ==>
              BLIND_WORLDS[k + 1] == Do(BLIND_WORLDS[k], BLIND_OPS[k], "p", "f", EAGER, cal)
  {
  }
}
