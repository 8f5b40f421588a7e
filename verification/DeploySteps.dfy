/** The deploy driver as it runs takes the steps of the driver machine. */
module DeploySteps {
  import opened Wrappers
  import opened Node
  import opened Driver

  /** The driver alone, with time passing, leads from one system to the other. */
  ghost predicate Goes(g: System, g': System) {
    exists gs, acts :: Runs(gs, acts) && Alone(acts) && gs[0] == g && gs[|acts|] == g'
  }

  predicate Alone(acts: seq<Act>) {
    forall a | a in acts :: a.Move? || a.Tick?
  }

  lemma GoesOn(a: System, b: System, c: System)
    requires Goes(a, b) && Goes(b, c)
    ensures Goes(a, c)
  {
    var gs, acts :| Runs(gs, acts) && Alone(acts) && gs[0] == a && gs[|acts|] == b;
    var hs, more :| Runs(hs, more) && Alone(more) && hs[0] == b && hs[|more|] == c;
    Chained(gs, acts, hs, more);
    var all := gs[..|acts|] + hs;
    assert all[0] == a && all[|acts + more|] == c;
  }

  lemma Chained(gs: seq<System>, acts: seq<Act>, hs: seq<System>, more: seq<Act>)
    requires Runs(gs, acts) && Runs(hs, more) && gs[|acts|] == hs[0]
    ensures Runs(gs[..|acts|] + hs, acts + more)
  {
    var all, both := gs[..|acts|] + hs, acts + more;
    forall i | 0 <= i < |both| ensures Next(all[i], both[i], all[i + 1]) {
      if i < |acts| {
        assert Next(gs[i], acts[i], gs[i + 1]);
      } else {
        assert Next(hs[i - |acts|], more[i - |acts|], hs[i - |acts| + 1]);
      }
    }
  }

  /** One driver, no heartbeat handler under way. */
  function Sole(n: Guarded, pc: Pc, calls: seq<Call>, now: int): System {
    System(n, 0, [pc], calls, now)
  }

  lemma Moves(n: Guarded, pc: Pc, calls: seq<Call>, now: int, agent: Agent)
    requires Drive(n, pc, now, agent).Some?
    ensures var m := Drive(n, pc, now, agent).value;
      Goes(Sole(n, pc, calls, now), Sole(m.node, m.pc, calls + if m.call.Some? then [m.call.value] else [], now))
  {
    var m := Drive(n, pc, now, agent).value;
    var g, g' := Sole(n, pc, calls, now), Sole(m.node, m.pc, calls + if m.call.Some? then [m.call.value] else [], now);
    assert g.drivers[0 := m.pc] == [m.pc];
    assert Next(g, Move(0, agent), g');
    assert Runs([g, g'], [Move(0, agent)]);
  }

  lemma Waits(n: Guarded, pc: Pc, calls: seq<Call>, now: int, until: int)
    requires now <= until
    ensures Goes(Sole(n, pc, calls, now), Sole(n, pc, calls, until))
  {
    var g, g' := Sole(n, pc, calls, now), Sole(n, pc, calls, until);
    assert Runs([g, g'], [Tick(until)]);
  }

  /** A step that sends nothing. */
  lemma Proceeds(n: Guarded, pc: Pc, calls: seq<Call>, now: int, agent: Agent, n': Guarded, pc': Pc)
    requires Drive(n, pc, now, agent) == Some(Moved(n', pc', None))
    ensures Goes(Sole(n, pc, calls, now), Sole(n', pc', calls, now))
  {
    Moves(n, pc, calls, now, agent);
    assert calls + [] == calls;
  }

  // ---------- the poll loop ----------

  /** The queries from number `k` on. */
  function Asked(replies: nat -> PollReply, cmd: string, k: nat, queries: nat): seq<Call>
    requires k <= queries
  {
    seq(queries - k, i requires 0 <= i => Poll(cmd, replies(k + i)))
  }

  lemma AskedLast(replies: nat -> PollReply, cmd: string, k: nat)
    ensures Asked(replies, cmd, k, k + 1) == [Poll(cmd, replies(k))]
  {
  }

  lemma AskedFirst(replies: nat -> PollReply, cmd: string, k: nat, queries: nat, calls: seq<Call>)
    requires k < queries
    ensures calls + [Poll(cmd, replies(k))] + Asked(replies, cmd, k + 1, queries) == calls + Asked(replies, cmd, k, queries)
  {
  }

  /** The loop stops after query `k`: its answer is terminal or the deadline has passed when it is checked. */
  predicate StopsAt(replies: nat -> PollReply, clock: nat -> int, start: int, k: nat) {
    Terminal(replies(k)) || clock(k) > start + DEADLINE
  }

  /** The clock does not go back from one check to the next, and ticks come no earlier than due. */
  ghost predicate Steady(clock: nat -> int, start: int) {
    && (forall k: nat :: clock(k) <= clock(k + 1))
    && (forall k: nat :: clock(k) >= start + TICK * k)
  }

  function Verdict(cmd: string, r: PollReply): Pc {
    if r == SUCCEEDED then Succeeded(cmd) else Failing
  }

  /** The last query and what follows from it. */
  lemma LastQuery(n: Guarded, cmd: string, replies: nat -> PollReply, clock: nat -> int, start: int,
                  calls: seq<Call>, k: nat, now: int)
    returns (later: int)
    requires StopsAt(replies, clock, start, k) && now <= clock(k)
    ensures Goes(Sole(n, Querying(cmd, start, k), calls, now),
                 Sole(n, Verdict(cmd, replies(k)), calls + [Poll(cmd, replies(k))], later))
  {
    var agent, longer := Agent(NoId, replies(k), false), calls + [Poll(cmd, replies(k))];
    Moves(n, Querying(cmd, start, k), calls, now, agent);
    later := now;
    if !Terminal(replies(k)) {
      later := clock(k);
      Waits(n, Checking(cmd, start, k), longer, now, later);
      Proceeds(n, Checking(cmd, start, k), longer, later, agent, n, Failing);
      GoesOn(Sole(n, Querying(cmd, start, k), calls, now), Sole(n, Checking(cmd, start, k), longer, now),
             Sole(n, Checking(cmd, start, k), longer, later));
      GoesOn(Sole(n, Querying(cmd, start, k), calls, now), Sole(n, Checking(cmd, start, k), longer, later),
             Sole(n, Failing, longer, later));
    }
  }

  /** A query that does not end the loop, up to the next one. */
  lemma OneRound(n: Guarded, cmd: string, replies: nat -> PollReply, clock: nat -> int, start: int, calls: seq<Call>,
                 k: nat, now: int)
    returns (later: int)
    requires !StopsAt(replies, clock, start, k) && now <= clock(k) && Steady(clock, start)
    ensures later <= clock(k + 1)
    ensures Goes(Sole(n, Querying(cmd, start, k), calls, now),
                 Sole(n, Querying(cmd, start, k + 1), calls + [Poll(cmd, replies(k))], later))
  {
    var agent, longer := Agent(NoId, replies(k), false), calls + [Poll(cmd, replies(k))];
    var asking, checking, waiting := Querying(cmd, start, k), Checking(cmd, start, k), Waiting(cmd, start, k + 1);
    later := if clock(k) >= start + TICK * (k + 1) then clock(k) else start + TICK * (k + 1);
    Moves(n, asking, calls, now, agent);
    Waits(n, checking, longer, now, clock(k));
    Proceeds(n, checking, longer, clock(k), agent, n, waiting);
    Waits(n, waiting, longer, clock(k), later);
    Proceeds(n, waiting, longer, later, agent, n, Querying(cmd, start, k + 1));
    var a := Sole(n, asking, calls, now);
    GoesOn(a, Sole(n, checking, longer, now), Sole(n, checking, longer, clock(k)));
    GoesOn(a, Sole(n, checking, longer, clock(k)), Sole(n, waiting, longer, clock(k)));
    GoesOn(a, Sole(n, waiting, longer, clock(k)), Sole(n, waiting, longer, later));
    GoesOn(a, Sole(n, waiting, longer, later), Sole(n, Querying(cmd, start, k + 1), longer, later));
  }

  lemma {:induction false} PollGoes(n: Guarded, cmd: string, replies: nat -> PollReply, clock: nat -> int, start: int,
                                    calls: seq<Call>, k: nat, queries: nat, now: int)
    returns (later: int)
    requires k < queries && Steady(clock, start) && now <= clock(k)
    requires StopsAt(replies, clock, start, queries - 1)
    requires forall i: nat | i < queries - 1 :: !StopsAt(replies, clock, start, i)
    ensures Goes(Sole(n, Querying(cmd, start, k), calls, now),
                 Sole(n, Verdict(cmd, replies(queries - 1)), calls + Asked(replies, cmd, k, queries), later))
    decreases queries - k
  {
    var longer := calls + [Poll(cmd, replies(k))];
    if k == queries - 1 {
      later := LastQuery(n, cmd, replies, clock, start, calls, k, now);
      AskedLast(replies, cmd, k);
      assert longer == calls + Asked(replies, cmd, k, queries);
    } else {
      var next := OneRound(n, cmd, replies, clock, start, calls, k, now);
      later := PollGoes(n, cmd, replies, clock, start, longer, k + 1, queries, next);
      AskedFirst(replies, cmd, k, queries, calls);
      GoesOn(Sole(n, Querying(cmd, start, k), calls, now), Sole(n, Querying(cmd, start, k + 1), longer, next),
             Sole(n, Verdict(cmd, replies(queries - 1)), calls + Asked(replies, cmd, k, queries), later));
    }
  }

  // ---------- the whole deployment ----------

  /** From the start of a driver to its end, with these calls and this node in the end. */
  ghost predicate Carries(n: Guarded, n': Guarded, calls: seq<Call>, start: int) {
    exists later, pc :: Stopped(pc) && Goes(Sole(n, Starting, [], start), Sole(n', pc, calls, later))
  }

  lemma NoUrlCarries(n: Guarded, start: int)
    requires n.callbackURL == ""
    ensures Carries(n, n, [], start)
  {
    Proceeds(n, Starting, [], start, Agent(NoId, PollError, false), n, NoUrl);
  }

  lemma LostRaceCarries(n: Guarded, start: int)
    requires n.callbackURL != "" && n.state != New
    ensures Carries(n, n, [], start)
  {
    var agent := Agent(NoId, PollError, false);
    Proceeds(n, Starting, [], start, agent, n, HasUrl);
    Proceeds(n, HasUrl, [], start, agent, n, LostRace);
    GoesOn(Sole(n, Starting, [], start), Sole(n, HasUrl, [], start), Sole(n, LostRace, [], start));
  }

  /** The driver takes the node and prepares. */
  lemma Begins(n: Guarded, start: int, agent: Agent)
    requires n.callbackURL != "" && n.state == New
    ensures var usable := agent.prepare.Id? && agent.prepare.cmd != "";
      Goes(Sole(n, Starting, [], start),
           Sole(n.(state := Deploying), if usable then Prepared(agent.prepare.cmd) else Failing,
                [Prepare(agent.prepare)], start))
  {
    var a, taken := Sole(n, Starting, [], start), n.(state := Deploying);
    Proceeds(n, Starting, [], start, agent, n, HasUrl);
    Proceeds(n, HasUrl, [], start, agent, taken, Preparing);
    Moves(taken, Preparing, [], start, agent);
    assert [] + [Prepare(agent.prepare)] == [Prepare(agent.prepare)];
    GoesOn(a, Sole(n, HasUrl, [], start), Sole(taken, Preparing, [], start));
    var next := if agent.prepare.Id? && agent.prepare.cmd != "" then Prepared(agent.prepare.cmd) else Failing;
    GoesOn(a, Sole(taken, Preparing, [], start), Sole(taken, next, [Prepare(agent.prepare)], start));
  }

  lemma Fails(n: Guarded, calls: seq<Call>, now: int)
    ensures Goes(Sole(n, Failing, calls, now), Sole(n.(state := Failed), Ended, calls, now))
  {
    Proceeds(n, Failing, calls, now, Agent(NoId, PollError, false), n.(state := Failed), Ended);
  }

  /** After SUCCEEDED: run, and what it leads to. */
  lemma RunsImage(n: Guarded, cmd: string, calls: seq<Call>, now: int, agent: Agent)
    requires n.state == Deploying
    ensures Goes(Sole(n, Succeeded(cmd), calls, now),
                 Sole(n.(state := if agent.run then Done else Failed), Ended, calls + [Run(agent.run)], now))
  {
    var a, running, longer := Sole(n, Succeeded(cmd), calls, now), n.(state := RunImage), calls + [Run(agent.run)];
    Proceeds(n, Succeeded(cmd), calls, now, agent, running, Running(cmd));
    Moves(running, Running(cmd), calls, now, agent);
    var next := if agent.run then Finishing(cmd) else Failing;
    GoesOn(a, Sole(running, Running(cmd), calls, now), Sole(running, next, longer, now));
    if agent.run {
      var done := n.(state := Done);
      Proceeds(running, Finishing(cmd), longer, now, agent, done, Marking(cmd));
      Proceeds(done, Marking(cmd), longer, now, agent, done, Ended);
      GoesOn(a, Sole(running, next, longer, now), Sole(done, Marking(cmd), longer, now));
      GoesOn(a, Sole(done, Marking(cmd), longer, now), Sole(done, Ended, longer, now));
    } else {
      Fails(running, longer, now);
      GoesOn(a, Sole(running, next, longer, now), Sole(n.(state := Failed), Ended, longer, now));
    }
  }

  /** No usable id: the driver fails its node. */
  lemma UnpreparedCarries(n: Guarded, start: int, agent: Agent)
    requires n.callbackURL != "" && n.state == New && !(agent.prepare.Id? && agent.prepare.cmd != "")
    ensures Carries(n, n.(state := Failed), [Prepare(agent.prepare)], start)
  {
    Begins(n, start, agent);
    var taken, calls := n.(state := Deploying), [Prepare(agent.prepare)];
    Fails(taken, calls, start);
    GoesOn(Sole(n, Starting, [], start), Sole(taken, Failing, calls, start), Sole(n.(state := Failed), Ended, calls, start));
  }

  /** Prepare, and polling to the end. */
  lemma PollsToEnd(n: Guarded, start: int, agent: Agent, replies: nat -> PollReply, clock: nat -> int, queries: nat)
    returns (later: int)
    requires n.callbackURL != "" && n.state == New && agent.prepare.Id? && agent.prepare.cmd != ""
    requires queries >= 1 && Steady(clock, start)
    requires StopsAt(replies, clock, start, queries - 1)
    requires forall i: nat | i < queries - 1 :: !StopsAt(replies, clock, start, i)
    ensures var cmd := agent.prepare.cmd;
      Goes(Sole(n, Starting, [], start),
           Sole(n.(state := Deploying, commandID := cmd), Verdict(cmd, replies(queries - 1)),
                [Prepare(Id(cmd))] + Asked(replies, cmd, 0, queries), later))
  {
    var cmd := agent.prepare.cmd;
    var a, taken, calls := Sole(n, Starting, [], start), n.(state := Deploying), [Prepare(Id(cmd))];
    var named := taken.(commandID := cmd);
    Begins(n, start, agent);
    Proceeds(taken, Prepared(cmd), calls, start, agent, named, Querying(cmd, start, 0));
    later := PollGoes(named, cmd, replies, clock, start, calls, 0, queries, start);
    GoesOn(a, Sole(taken, Prepared(cmd), calls, start), Sole(named, Querying(cmd, start, 0), calls, start));
    GoesOn(a, Sole(named, Querying(cmd, start, 0), calls, start),
           Sole(named, Verdict(cmd, replies(queries - 1)), calls + Asked(replies, cmd, 0, queries), later));
  }

  /** The whole deployment of a node whose prepare returned an id. */
  lemma PreparedCarries(n: Guarded, start: int, agent: Agent, replies: nat -> PollReply, clock: nat -> int,
                        queries: nat, calls: seq<Call>)
    requires n.callbackURL != "" && n.state == New && agent.prepare.Id? && agent.prepare.cmd != ""
    requires queries >= 1 && Steady(clock, start)
    requires StopsAt(replies, clock, start, queries - 1)
    requires forall i: nat | i < queries - 1 :: !StopsAt(replies, clock, start, i)
    requires calls == [Prepare(Id(agent.prepare.cmd))] + Asked(replies, agent.prepare.cmd, 0, queries)
    ensures var named, won := n.(commandID := agent.prepare.cmd), replies(queries - 1) == SUCCEEDED;
      Carries(n, named.(state := if won && agent.run then Done else Failed),
              calls + if won then [Run(agent.run)] else [], start)
  {
    var cmd := agent.prepare.cmd;
    var a, named := Sole(n, Starting, [], start), n.(state := Deploying, commandID := cmd);
    var later := PollsToEnd(n, start, agent, replies, clock, queries);
    if replies(queries - 1) == SUCCEEDED {
      RunsImage(named, cmd, calls, later, agent);
      GoesOn(a, Sole(named, Succeeded(cmd), calls, later),
             Sole(named.(state := if agent.run then Done else Failed), Ended, calls + [Run(agent.run)], later));
    } else {
      Fails(named, calls, later);
      GoesOn(a, Sole(named, Failing, calls, later), Sole(named.(state := Failed), Ended, calls, later));
      assert calls + [] == calls;
    }
  }
}
