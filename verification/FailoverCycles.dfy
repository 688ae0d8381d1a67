/** The controller in operation, and its hysteresis against the billing calendar. */
module FailoverCycles {
  import opened Wrappers
  import opened FailoverPolicy
  import opened FailoverController
  import opened FailoverRuns
  import B = BillingCalendar

  // ---------- a controller makes runs ----------

  /** When an operation that reads the clock did so. */
  function TimeOf(op: Op): Option<int> {
    match op
    case Traffic(_, at) => Some(at)
    case Mode(_, at) => Some(at)
    case Commit(_, at) => Some(at)
    case CommitFailed(_, at) => Some(at)
    case CommitRejected(_, at) => Some(at)
    case Tick(now) => Some(now)
    case _ => None
  }

  /** The clock does not go back, and has not been read later than `clock`. */
  ghost predicate InTime(ops: seq<Op>, clock: int) {
    && (forall i :: 0 <= i < |ops| && TimeOf(ops[i]).Some? ==> TimeOf(ops[i]).value <= clock)
    && forall i, j :: 0 <= i <= j < |ops| && TimeOf(ops[i]).Some? && TimeOf(ops[j]).Some? ==>
                        TimeOf(ops[i]).value <= TimeOf(ops[j]).value
  }

  /** The two role holders, found in whatever order the nodes are listed. */
  ghost predicate Manned(w: World, p: string, f: string) {
    Holders(w, p, f) && Leading(w, p, f)
  }

  /** What a node is configured to be, whatever becomes of its health and traffic. */
  predicate SameStanding(a: Node, b: Node) {
    a.id == b.id && a.role == b.role && a.priority == b.priority && a.resetDay == b.resetDay && a.zone == b.zone
  }

  ghost predicate StandingsKept(w: World, next: World) {
    next.nodes.Keys == w.nodes.Keys && forall id <- w.nodes :: SameStanding(w.nodes[id], next.nodes[id])
  }

  lemma StandingsStay(w: World, op: Op, p: string, f: string, cfg: Config, cal: Calendar)
    requires p in w.nodes && f in w.nodes
    ensures StandingsKept(w, Do(w, op, p, f, cfg, cal))
  {
    hide Decide, Refusal, HealthFor, NormalSample, InvalidSample;
  }

  /** Nothing an operation does changes who holds the roles. */
  lemma RolesStay(w: World, next: World, p: string, f: string)
    requires Manned(w, p, f) && StandingsKept(w, next)
    ensures Manned(next, p, f)
  {
    forall id <- next.nodes ensures SameStanding(w.nodes[id], next.nodes[id]) {}
  }

  /** An operation on a controller was the step `op`, or a failing writer left everything as it was. */
  ghost predicate Stepped(was: World, w: World, op: Op, p: string, f: string, cfg: Config, cal: Calendar) {
    Manned(was, p, f) && (w == was || w == Do(was, op, p, f, cfg, cal))
  }

  method RunHealth(c: Controller, id: string, success: bool, ghost p: string, ghost f: string) returns (ghost op: Op)
    requires c.Valid() && Manned(WorldOf(c), p, f)
    modifies c
    ensures c.Valid() && c.clock >= old(c.clock) && TimeOf(op).None?
    ensures Stepped(old(WorldOf(c)), WorldOf(c), op, p, f, c.cfg, c.cal)
  {
    hide Controller.Valid, Leading;
    op := Health(id, success);
    var err := c.SetHealth(id, success);
  }

  method RunMaintenance(c: Controller, id: string, on: bool, ghost p: string, ghost f: string) returns (ghost op: Op)
    requires c.Valid() && Manned(WorldOf(c), p, f)
    modifies c
    ensures c.Valid() && c.clock >= old(c.clock) && TimeOf(op).None?
    ensures Stepped(old(WorldOf(c)), WorldOf(c), op, p, f, c.cfg, c.cal)
  {
    hide Controller.Valid, Leading;
    op := Maintenance(id, on);
    var err := c.SetMaintenance(id, on);
  }

  method RunTraffic(c: Controller, sample: TrafficSample, ghost p: string, ghost f: string) returns (ghost op: Op)
    requires c.Valid() && Manned(WorldOf(c), p, f)
    modifies c
    ensures c.Valid() && old(c.clock) <= c.clock && TimeOf(op) == Some(c.clock)
    ensures Stepped(old(WorldOf(c)), WorldOf(c), op, p, f, c.cfg, c.cal)
  {
    hide Controller.Valid, Leading;
    var err := c.SetTraffic(sample);
    op := Traffic(sample, c.clock);
  }

  method RunMode(c: Controller, mode: FailoverPolicy.Mode, ghost p: string, ghost f: string) returns (ghost op: Op)
    requires c.Valid() && Manned(WorldOf(c), p, f)
    modifies c
    ensures c.Valid() && old(c.clock) <= c.clock && TimeOf(op) == Some(c.clock)
    ensures Stepped(old(WorldOf(c)), WorldOf(c), op, p, f, c.cfg, c.cal)
  {
    hide Controller.Valid, Leading;
    var err := c.SetMode(mode);
    op := Op.Mode(mode, c.clock);
  }

  method RunDNS(c: Controller, change: Change, node: string, id: nat, ghost p: string, ghost f: string)
    returns (ghost op: Op)
    requires c.Valid() && Manned(WorldOf(c), p, f)
    modifies c
    ensures c.Valid() && old(c.clock) <= c.clock && TimeOf(op) == Some(c.clock)
    ensures Stepped(old(WorldOf(c)), WorldOf(c), op, p, f, c.cfg, c.cal)
  {
    hide Controller.Valid, Leading, FindRole, Controller.PublishedOver;
    ghost var was := WorldOf(c);
    var err := c.ApplyDNSAndCommit(change, node, id);
    if err.Nil? {
      op := Commit(node, c.clock);
      PublishedIsCommitted(c, was, node, p, f);
    } else if err.NodeNotEligible? {
      op := CommitRejected(node, c.clock);
    } else {
      op := CommitFailed(node, c.clock);
    }
  }

  lemma PublishedIsCommitted(c: Controller, was: World, node: string, p: string, f: string)
    requires c.PublishedOver(was.state, was.events, node) && Manned(was, p, f) && c.nodes == was.nodes
    ensures WorldOf(c) == Do(was, Commit(node, c.clock), p, f, c.cfg, c.cal)
  {
    hide Leading, FindRole, Decide, Refusal;
    var list :|
      Enumerates(list, c.nodes) && c.state == DNSCommitted(was.state, node, c.clock, FindRole(list, Primary));
    HoldersAreFound(list, was, p, f);
  }

  method RunRound(c: Controller, ghost p: string, ghost f: string) returns (ghost op: Op)
    requires c.Valid() && Manned(WorldOf(c), p, f)
    modifies c
    ensures c.Valid() && old(c.clock) <= c.clock && TimeOf(op) == Some(c.clock)
    ensures Stepped(old(WorldOf(c)), WorldOf(c), op, p, f, c.cfg, c.cal)
  {
    hide Controller.Valid, Leading, Do;
    RunTick(c, p, f);
    op := Tick(c.clock);
  }

  /** One call of any kind, with any arguments, in any order with the others. */
  method AnyCall(c: Controller, ghost p: string, ghost f: string) returns (ghost op: Op)
    requires c.Valid() && Manned(WorldOf(c), p, f)
    modifies c
    ensures c.Valid() && old(c.clock) <= c.clock
    ensures TimeOf(op).Some? ==> old(c.clock) <= TimeOf(op).value <= c.clock
    ensures Stepped(old(WorldOf(c)), WorldOf(c), op, p, f, c.cfg, c.cal)
  {
    hide Controller.Valid, Manned, Stepped;
    var what: nat, id: string, flag: bool, mode: FailoverPolicy.Mode := *, *, *, *;
    var sample: TrafficSample, change: Change, run: nat := *, *, *;
    if what == 0 {
      op := RunHealth(c, id, flag, p, f);
    } else if what == 1 {
      op := RunMaintenance(c, id, flag, p, f);
    } else if what == 2 {
      op := RunTraffic(c, sample, p, f);
    } else if what == 3 {
      op := RunMode(c, mode, p, f);
    } else if what == 4 {
      op := RunDNS(c, change, id, run, p, f);
    } else {
      op := RunRound(c, p, f);
    }
  }

  lemma ManStays(w: World, next: World, op: Op, p: string, f: string, cfg: Config, cal: Calendar)
    requires Stepped(w, next, op, p, f, cfg, cal)
    ensures Manned(next, p, f) && Holders(next, p, f)
  {
    hide Do, Leading, StandingsKept;
    if next != w {
      StandingsStay(w, op, p, f, cfg, cal);
      RolesStay(w, next, p, f);
    }
  }

  lemma StepIs(w: World, next: World, op: Op, p: string, f: string, cfg: Config, cal: Calendar)
    requires Stepped(w, next, op, p, f, cfg, cal)
    ensures Holders(w, p, f) && (next == w || next == Do(w, op, p, f, cfg, cal))
  {
  }

  lemma HoldersServe(w: World, p: string, f: string)
    requires Holders(w, p, f)
    ensures p in w.nodes && f in w.nodes
  {
  }

  lemma RunGrows(ws: seq<World>, ops: seq<Op>, w: World, op: Op, p: string, f: string, cfg: Config, cal: Calendar)
    requires IsRun(ws, ops, p, f, cfg, cal) && Holders(w, p, f)
    requires Holders(ws[|ops|], p, f) ==> w == ws[|ops|] || w == Do(ws[|ops|], op, p, f, cfg, cal)
    ensures IsRun(ws + [w], ops + [op], p, f, cfg, cal)
  {
    hide Do, Holders;
    var longer, more := ws + [w], ops + [op];
    forall k | 0 <= k < |longer| ensures Holders(longer[k], p, f) {
      if k < |ws| { assert longer[k] == ws[k]; }
    }
    forall k | 0 <= k < |longer| ensures p in longer[k].nodes && f in longer[k].nodes {
      HoldersServe(longer[k], p, f);
    }
    forall k | 0 <= k < |more|
      ensures longer[k+1] == longer[k] || longer[k+1] == Do(longer[k], more[k], p, f, cfg, cal)
    {
      if k < |ops| { assert longer[k] == ws[k] && longer[k+1] == ws[k+1] && more[k] == ops[k]; }
    }
  }

  /** Whatever calls a controller receives make a run, at times that do not go back: what is proved
      of runs is true of controllers. */
  method Operate(c: Controller, calls: nat, ghost p: string, ghost f: string)
    returns (ghost ws: seq<World>, ghost ops: seq<Op>)
    requires c.Valid() && Manned(WorldOf(c), p, f)
    modifies c
    ensures c.Valid() && IsRun(ws, ops, p, f, c.cfg, c.cal) && |ops| == calls && InTime(ops, c.clock)
    ensures ws[0] == old(WorldOf(c)) && ws[calls] == WorldOf(c)
  {
    hide Controller.Valid, Stepped;
    ws, ops := [WorldOf(c)], [];
    for i := 0 to calls
      invariant c.Valid() && Manned(WorldOf(c), p, f) && |ops| == i && |ws| == i + 1
      invariant IsRun(ws, ops, p, f, c.cfg, c.cal) && InTime(ops, c.clock)
      invariant ws[0] == old(WorldOf(c)) && ws[i] == WorldOf(c)
    {
      hide IsRun, Manned;
      ghost var op := AnyCall(c, p, f);
      ManStays(ws[i], WorldOf(c), op, p, f, c.cfg, c.cal);
      StepIs(ws[i], WorldOf(c), op, p, f, c.cfg, c.cal);
      RunGrows(ws, ops, WorldOf(c), op, p, f, c.cfg, c.cal);
      ws, ops := ws + [WorldOf(c)], ops + [op];
    }
  }

  // ---------- commits are not paced ----------

  lemma {:induction false} NoSwitches(events: seq<Event>, since: int)
    requires forall e <- events :: e.kind != NodeSwitched
    ensures Switches(events, since) == 0
  {
    if events != [] { NoSwitches(events[..|events|-1], since); }
  }

  lemma NotLimited(events: seq<Event>, cfg: Config, now: int)
    requires forall e <- events :: e.kind != NodeSwitched
    ensures !Limited(events, cfg, now)
  {
    NoSwitches(events, now - cfg.window);
  }

  /** On any controller that has switched nothing yet: right after a DNS commit to the fallback an
      automatic switch back to the primary is refused by nothing, so the active node changes twice
      at one moment. */
  method CommitThenSwitch(c: Controller, change: Change, id: nat, p: string, f: string)
    returns (committed: Error, switched: Error)
    requires c.Valid() && c.state.mode == Auto && c.state.active == p && c.state.cooldownUntil.None?
    requires p != f && p in c.nodes && p != "" && c.nodes[p].enabled && !c.nodes[p].maintenance
    requires !c.writers.transition && !c.writers.event && !c.writers.state
    requires forall e <- c.events :: e.kind != NodeSwitched
    modifies c
    ensures c.Valid() && (committed.Nil? ==> switched.Nil?)
    ensures committed.Nil? ==>
              && c.events == old(c.events)
                             + [Event(|old(c.events)| + 1, c.clock, DNSSwitchCommitted, "", f, Auto, true),
                                Event(|old(c.events)| + 2, c.clock, NodeSwitched, f, p, Auto, true)]
              && c.state.active == p
  {
    hide Controller.Paced, Controller.Matched, Controller.Durable, Controller.Explained, Limited;
    switched := Nil;
    committed := c.ApplyDNSAndCommit(change, f, id);
    if committed.Nil? {
      NotLimited(c.events, c.cfg, c.clock);
      var list;
      switched, list := c.ApplyDecisionNow(p);
    }
  }

  // ---------- the log tells which node is active ----------

  /** Another node becomes active exactly in a step that logs a switch or a DNS commit to it. */
  lemma ActiveChangesByMove(w: World, op: Op, p: string, f: string, cfg: Config, cal: Calendar)
    requires Manned(w, p, f)
    ensures var next := Do(w, op, p, f, cfg, cal);
            next.state.active != w.state.active
            <==> |next.events| == |w.events| + 1 && Moves(next.events[|w.events|])
                 && next.events[|w.events|].to == next.state.active != w.state.active
    ensures w.events <= Do(w, op, p, f, cfg, cal).events
  {
    hide Decide, Refusal;
  }

  /** Over a whole run the log says which node is active at every moment. */
  lemma {:induction false} ActiveByLog(ws: seq<World>, ops: seq<Op>, k: nat, p: string, f: string, cfg: Config,
                                       cal: Calendar)
    requires IsRun(ws, ops, p, f, cfg, cal) && k < |ws|
    ensures ws[0].events <= ws[k].events
    ensures ws[k].state.active == ActiveAfter(ws[0].state.active, ws[k].events, |ws[0].events|)
  {
    assert |ws| == |ops| + 1;
    if k == 0 {
      ActiveAtStart(ws[0].state.active, ws[0].events);
    } else {
      ActiveByLog(ws, ops, k - 1, p, f, cfg, cal);
      assert Holders(ws[k-1], p, f);
      if ws[k] != ws[k-1] { StepIsLogged(ws[k-1], ops[k-1], ws[0].state.active, |ws[0].events|, p, f, cfg, cal); }
    }
  }

  lemma StepIsLogged(w: World, op: Op, start: string, from: nat, p: string, f: string, cfg: Config, cal: Calendar)
    requires Holders(w, p, f) && from <= |w.events| && w.state.active == ActiveAfter(start, w.events, from)
    ensures var next := Do(w, op, p, f, cfg, cal);
            w.events <= next.events && next.state.active == ActiveAfter(start, next.events, from)
  {
    var next := Do(w, op, p, f, cfg, cal);
    hide ActiveAfter, Decide, Refusal;
    if next.events != w.events {
      var e := next.events[|w.events|];
      assert next.events == w.events + [e];
      ActiveAppend(start, w.events, from, e);
    }
  }

  // ---------- the billing calendar ----------

  /** The wall clock of each zone, and the first instant of each date there. */
  ghost predicate WallClock(wall: (int, string) -> B.Moment, first: (B.Date, string) -> int) {
    && (forall t, z :: B.OnClock(wall(t, z)))
    && (forall t, d, z :: B.Valid(d) ==> (t < first(d, z) <==> B.DateLess(wall(t, z).date, d)))
    && (forall d, e, z :: B.Valid(d) && B.Valid(e) && B.DateLess(d, e) ==> first(d, z) < first(e, z))
  }

  /** Cycle starts as the service computes them. */
  function ServiceCalendar(wall: (int, string) -> B.Moment, first: (B.Date, string) -> int): Calendar {
    (now: int, day: int, z: string) =>
      if B.OnClock(wall(now, z)) then first(B.BillingCycleStart(wall(now, z), day), z) else 0
  }

  /** Once a cycle the service names has begun, it is the true one: where the service is a cycle
      ahead, it names one that has not. */
  lemma BegunIsTrue(wall: (int, string) -> B.Moment, first: (B.Date, string) -> int, now: int, day: int, z: string)
    requires WallClock(wall, first) && day >= 1 && now >= ServiceCalendar(wall, first)(now, day, z)
    ensures B.OnClock(wall(now, z))
    ensures B.BillingCycleStart(wall(now, z), day) == B.CycleStart(wall(now, z), day)
    ensures ServiceCalendar(wall, first)(now, day, z) == first(B.CycleStart(wall(now, z), day), z)
  {
    var t := wall(now, z);
    assert B.OnClock(t);
    B.DisagreementIsAhead(t, day);
    B.CyclesTile(t, day);
    B.StartsAreValid(t, day);
    hide B.BillingCycleStart, B.CycleStart, B.CycleEnd;
    assert !B.DateLess(t.date, B.BillingCycleStart(t, day));
  }

  lemma CalendarIsMonotone(wall: (int, string) -> B.Moment, first: (B.Date, string) -> int, s: int, t: int,
                           day: int, z: string)
    requires WallClock(wall, first) && day >= 1 && s <= t
    ensures ServiceCalendar(wall, first)(s, day, z) <= ServiceCalendar(wall, first)(t, day, z)
  {
    var a, b := wall(s, z), wall(t, z);
    assert B.OnClock(a) && B.OnClock(b);
    B.StartsAreValid(a, day);
    B.StartsAreValid(b, day);
    assert !B.DateLess(b.date, a.date) by { assert t < first(a.date, z) <==> B.DateLess(b.date, a.date); }
    if B.DateLess(a.date, b.date) {
      B.StartsAreMonotone(a, b, day);
    } else {
      B.DateDecides(a, b, day);
    }
    hide B.BillingCycleStart;
    var d, e := B.BillingCycleStart(a, day), B.BillingCycleStart(b, day);
    assert d == e || B.DateLess(d, e);
  }

  /** Known keys of a stretch of the run are cycles of moments in a stretch of time. */
  ghost predicate KeysOfTheClock(ws: seq<World>, p: string, h: nat, j: nat, from: int, to: int, day: int, z: string,
                                 cal: Calendar)
    requires h <= j <= |ws|
  {
    forall a :: h <= a < j && p in ws[a].nodes && Key(ws[a], p).Some? ==>
      exists t :: from <= t <= to && Key(ws[a], p) == Some(cal(t, day, z))
  }

  lemma ClockKeysAreBetween(ws: seq<World>, p: string, h: nat, j: nat, from: int, to: int, day: int, z: string,
                            wall: (int, string) -> B.Moment, first: (B.Date, string) -> int)
    requires WallClock(wall, first) && day >= 1 && h <= j <= |ws|
    requires KeysOfTheClock(ws, p, h, j, from, to, day, z, ServiceCalendar(wall, first))
    ensures var cal := ServiceCalendar(wall, first); KeysBetween(ws, p, h, j, cal(from, day, z), cal(to, day, z))
  {
    var cal := ServiceCalendar(wall, first);
    hide WallClock, ServiceCalendar, Key;
    forall a | h <= a < j && p in ws[a].nodes && Key(ws[a], p).Some?
      ensures cal(from, day, z) <= Key(ws[a], p).value <= cal(to, day, z)
    {
      var t :| from <= t <= to && Key(ws[a], p) == Some(cal(t, day, z));
      CalendarIsMonotone(wall, first, from, t, day, z);
      CalendarIsMonotone(wall, first, t, to, day, z);
    }
  }

  lemma {:induction false} ResetStays(ws: seq<World>, ops: seq<Op>, i: nat, j: nat, p: string, f: string, cfg: Config,
                                      cal: Calendar)
    requires IsRun(ws, ops, p, f, cfg, cal) && i <= j < |ws|
    ensures Holders(ws[i], p, f) && Holders(ws[j], p, f)
    ensures ws[j].nodes[p].resetDay == ws[i].nodes[p].resetDay && ws[j].nodes[p].zone == ws[i].nodes[p].zone
  {
    if i < j {
      ResetStays(ws, ops, i, j - 1, p, f, cfg, cal);
      if ws[j] != ws[j-1] { StandingsStay(ws[j-1], ops[j-1], p, f, cfg, cal); }
    }
  }

  /** With a reset day, two returns to the primary of which the first is on a known sample lie in
      different true billing cycles, the second in a later one, although the service does not always
      compute the true cycle: a return waits until the cycle it names has begun. */
  lemma ReturnsInDifferentCycles(ws: seq<World>, ops: seq<Op>, i: nat, j: nat, p: string, f: string, cfg: Config,
                                 wall: (int, string) -> B.Moment, first: (B.Date, string) -> int)
    requires WallClock(wall, first) && cfg.resetGrace >= 0
    requires IsRun(ws, ops, p, f, cfg, ServiceCalendar(wall, first))
    requires i < j && Returns(ws, ops, i, p, f) && Returns(ws, ops, j, p, f)
    requires Guarded(ws[i], f) && Guarded(ws[j], f)
    requires p in ws[i].nodes && ws[i].nodes[p].resetDay >= 1 && Key(ws[i], p).Some?
    requires KeysOfTheClock(ws, p, i, j, ops[i].now, ops[j].now, ws[i].nodes[p].resetDay, ws[i].nodes[p].zone,
                            ServiceCalendar(wall, first))
    ensures var (day, z) := (ws[i].nodes[p].resetDay, ws[i].nodes[p].zone);
            && B.OnClock(wall(ops[i].now, z)) && B.OnClock(wall(ops[j].now, z))
            && B.DateLess(B.CycleStart(wall(ops[i].now, z), day), B.CycleStart(wall(ops[j].now, z), day))
  {
    var cal := ServiceCalendar(wall, first);
    var day, z := ws[i].nodes[p].resetDay, ws[i].nodes[p].zone;
    ResetStays(ws, ops, i, j, p, f, cfg, cal);
    ReturnShowsNewKey(ws, ops, i, p, f, cfg, cal);
    ReturnShowsNewKey(ws, ops, j, p, f, cfg, cal);
    assert Shown(ws[i], p) == Key(ws[i], p);
    ClockKeysAreBetween(ws, p, i, j, ops[i].now, ops[j].now, day, z, wall, first);
    hide IsRun, Guarded, Key, Shown, KeysOfTheClock;
    OneReturnAfterKnown(ws, ops, i, j, p, f, cfg, cal);
    BegunIsTrue(wall, first, ops[i].now, day, z);
    BegunIsTrue(wall, first, ops[j].now, day, z);
    LaterStart(wall, first, ops[i].now, ops[j].now, day, z);
  }

  lemma LaterStart(wall: (int, string) -> B.Moment, first: (B.Date, string) -> int, s: int, t: int, day: int, z: string)
    requires WallClock(wall, first) && day >= 1 && B.OnClock(wall(s, z)) && B.OnClock(wall(t, z))
    requires first(B.CycleStart(wall(s, z), day), z) < first(B.CycleStart(wall(t, z), day), z)
    ensures B.DateLess(B.CycleStart(wall(s, z), day), B.CycleStart(wall(t, z), day))
  {
    B.StartsAreValid(wall(s, z), day);
    B.StartsAreValid(wall(t, z), day);
    hide B.CycleStart;
    var d, e := B.CycleStart(wall(s, z), day), B.CycleStart(wall(t, z), day);
    assert B.DateLess(e, d) ==> first(e, z) < first(d, z);
  }
}
