/**
 The deploy driver of one node, interleaved with any number of heartbeats and an agent
 that answers as it likes.  Every access to the node's guarded fields and every exchange
 with the agent is one step; times are in seconds.
 */
module Driver {
  import opened Wrappers
  import opened Node

  const TICK := 5
  const DEADLINE := 7200

  /** The most status queries one deployment makes. */
  const MAX_QUERIES := 1442

  /** Answer to `standby.prepare_image`: an error, a response without an id, or the id of the command. */
  datatype PrepareReply = PrepareError | NoId | Id(cmd: string)

  datatype PollReply = PollError | Status(status: string)

  /** What the driver sent, with the answer. */
  datatype Call = Prepare(reply: PrepareReply) | Poll(cmd: string, answer: PollReply) | Run(ok: bool)

  const SUCCEEDED := Status("SUCCEEDED")
  const FAILED := Status("FAILED")

  predicate Terminal(r: PollReply) {
    r == SUCCEEDED || r == FAILED
  }

  /** Where a driver goroutine stands. */
  datatype Pc =
    | Starting
    | HasUrl
    | Preparing
    | Prepared(cmd: string)
    | Querying(cmd: string, start: int, k: nat)
    | Checking(cmd: string, start: int, k: nat)
    | Waiting(cmd: string, start: int, k: nat)
    | Succeeded(cmd: string)
    | Running(cmd: string)
    | Finishing(cmd: string)
    | Marking(cmd: string)
    | Failing
    | Ended
    | NoUrl
    | LostRace

  predicate Stopped(pc: Pc) {
    pc.Ended? || pc.NoUrl? || pc.LostRace?
  }

  /** What the agent would answer at this step. */
  datatype Agent = Agent(prepare: PrepareReply, poll: PollReply, run: bool)

  datatype Moved = Moved(node: Guarded, pc: Pc, call: Option<Call>)

  /** One step of a driver; none when it has stopped or waits for the ticker. */
  function Drive(n: Guarded, pc: Pc, now: int, agent: Agent): Option<Moved> {
    match pc
    case Starting => Some(Moved(n, if n.callbackURL == "" then NoUrl else HasUrl, None))
    case HasUrl =>
      var (n', ok) := Swap(n, New, Deploying);
      Some(Moved(n', if ok then Preparing else LostRace, None))
    case Preparing =>
      var next := if agent.prepare.Id? && agent.prepare.cmd != "" then Prepared(agent.prepare.cmd) else Failing;
      Some(Moved(n, next, Some(Prepare(agent.prepare))))
    case Prepared(cmd) => Some(Moved(n.(commandID := cmd), Querying(cmd, now, 0), None))
    case Querying(cmd, start, k) =>
      var next := if agent.poll == SUCCEEDED then Succeeded(cmd)
                  else if agent.poll == FAILED then Failing
                  else Checking(cmd, start, k);
      Some(Moved(n, next, Some(Poll(cmd, agent.poll))))
    case Checking(cmd, start, k) =>
      Some(Moved(n, if now > start + DEADLINE then Failing else Waiting(cmd, start, k + 1), None))
    case Waiting(cmd, start, k) =>
      if now >= start + TICK * k then Some(Moved(n, Querying(cmd, start, k), None)) else None
    case Succeeded(cmd) =>
      var (n', ok) := Swap(n, Deploying, RunImage);
      Some(Moved(n', if ok then Running(cmd) else LostRace, None))
    case Running(cmd) => Some(Moved(n, if agent.run then Finishing(cmd) else Failing, Some(Run(agent.run))))
    case Finishing(cmd) => Some(Moved(n.(state := Done), Marking(cmd), None))
    case Marking(cmd) => Some(Moved(n, Ended, None))
    case Failing => Some(Moved(n.(state := Failed), Ended, None))
    case _ => None
  }

  /** A node, heartbeat handlers that were told to start a driver, drivers started, calls sent, clock. */
  datatype System = System(node: Guarded, pending: nat, drivers: seq<Pc>, calls: seq<Call>, clock: int)

  const IDLE := System(FRESH, 0, [], [], 0)

  datatype Act = Beat(callbackURL: string) | Spawn | Move(i: nat, agent: Agent) | Tick(until: int)

  ghost predicate Next(g: System, a: Act, g': System) {
    match a
    case Beat(url) =>
      var (n, starts) := Heartbeat(g.node, url, g.clock);
      g' == g.(node := n, pending := if starts then g.pending + 1 else g.pending)
    case Spawn => g.pending > 0 && g' == g.(pending := g.pending - 1, drivers := g.drivers + [Starting])
    case Move(i, agent) =>
      && i < |g.drivers|
      && var moved := Drive(g.node, g.drivers[i], g.clock, agent);
      && moved.Some?
      && g' == g.(node := moved.value.node, drivers := g.drivers[i := moved.value.pc],
                  calls := g.calls + if moved.value.call.Some? then [moved.value.call.value] else [])
    case Tick(until) => until >= g.clock && g' == g.(clock := until)
  }

  ghost predicate Runs(gs: seq<System>, acts: seq<Act>) {
    |gs| == |acts| + 1 && forall i {:trigger acts[i]} | 0 <= i < |acts| :: Next(gs[i], acts[i], gs[i + 1])
  }

  // ---------- the shape of the call log ----------

  /** `calls` is a prepare that returned `cmd` and then `k` queries about it, none of them terminal. */
  ghost predicate Polled(calls: seq<Call>, cmd: string, k: nat) {
    && |calls| == k + 1 && calls[0] == Prepare(Id(cmd)) && cmd != ""
    && forall i | 1 <= i < |calls| :: calls[i].Poll? && calls[i].cmd == cmd && !Terminal(calls[i].answer)
  }

  /** The same, ended by a query that reported `last`. */
  ghost predicate PolledUntil(calls: seq<Call>, cmd: string, last: PollReply) {
    |calls| >= 2 && Polled(calls[..|calls| - 1], cmd, |calls| - 2) && calls[|calls| - 1] == Poll(cmd, last)
  }

  /** The id that the first call returned, if it did. */
  function CommandOf(calls: seq<Call>): string {
    if calls != [] && calls[0].Prepare? && calls[0].reply.Id? then calls[0].reply.cmd else ""
  }

  /**
   Every log the protocol allows: prepare first and once; queries only about the id it
   returned, at most MAX_QUERIES of them, none after a terminal answer; run at most once,
   last, and directly after a query that reported success.
   */
  ghost predicate Disciplined(calls: seq<Call>) {
    var n, cmd := |calls|, CommandOf(calls);
    || n == 0
    || (n == 1 && calls[0].Prepare?)
    || (n <= MAX_QUERIES + 1 && Polled(calls, cmd, n - 1))
    || (n <= MAX_QUERIES + 1 && PolledUntil(calls, cmd, SUCCEEDED))
    || (n <= MAX_QUERIES + 1 && PolledUntil(calls, cmd, FAILED))
    || (n <= MAX_QUERIES + 2 && calls[n - 1].Run? && PolledUntil(calls[..n - 1], cmd, SUCCEEDED))
  }

  /** The last exchange is one after which nothing is left to send: no usable id, no success, or run was sent. */
  predicate Complete(calls: seq<Call>) {
    calls != [] &&
    match calls[|calls| - 1]
    case Prepare(reply) => !(reply.Id? && reply.cmd != "")
    case Poll(_, answer) => answer != SUCCEEDED
    case Run(_) => true
  }

  // ---------- the invariant ----------

  /** What the driver's place says about the node's state, the clock and the log. */
  ghost predicate Fits(pc: Pc, n: Guarded, calls: seq<Call>, now: int) {
    match pc
    case Starting => n.state == New && calls == []
    case NoUrl => n.state == New && calls == []
    case HasUrl => n.state == New && calls == []
    case Preparing => n.state == Deploying && calls == []
    case Prepared(cmd) => n.state == Deploying && Polled(calls, cmd, 0)
    case Querying(cmd, start, k) =>
      n.state == Deploying && n.commandID == cmd && Polled(calls, cmd, k) && k < MAX_QUERIES && now >= start + TICK * k
    case Checking(cmd, start, k) =>
      n.state == Deploying && n.commandID == cmd && Polled(calls, cmd, k + 1) && k < MAX_QUERIES && now >= start + TICK * k
    case Waiting(cmd, start, k) =>
      n.state == Deploying && n.commandID == cmd && Polled(calls, cmd, k) && k < MAX_QUERIES
    case Succeeded(cmd) => n.state == Deploying && PolledUntil(calls, cmd, SUCCEEDED) && |calls| <= MAX_QUERIES + 1
    case Running(cmd) => n.state == RunImage && PolledUntil(calls, cmd, SUCCEEDED) && |calls| <= MAX_QUERIES + 1
    case Finishing(cmd) => n.state == RunImage && Disciplined(calls) && calls != [] && calls[|calls| - 1] == Run(true)
    case Marking(cmd) => n.state == Done && Disciplined(calls) && calls != [] && calls[|calls| - 1] == Run(true)
    case Failing => n.state in {Deploying, RunImage} && Disciplined(calls) && Complete(calls) && calls[|calls| - 1] != Run(true)
    case Ended => n.state in {Done, Failed} && Disciplined(calls) && Complete(calls)
                  && (n.state == Done <==> calls[|calls| - 1] == Run(true))
    case LostRace => false
  }

  ghost predicate Inv(g: System) {
    && g.pending + |g.drivers| == (if g.node.driverStarted then 1 else 0)
    && (g.drivers == [] ==> g.node.state == New && g.calls == [])
    && (g.drivers != [] ==> Fits(g.drivers[0], g.node, g.calls, g.clock))
  }

  lemma PolledGrows(calls: seq<Call>, cmd: string, k: nat, r: PollReply)
    requires Polled(calls, cmd, k)
    ensures !Terminal(r) ==> Polled(calls + [Poll(cmd, r)], cmd, k + 1)
    ensures Terminal(r) ==> PolledUntil(calls + [Poll(cmd, r)], cmd, r)
    ensures r == FAILED && k < MAX_QUERIES ==> Disciplined(calls + [Poll(cmd, r)])
  {
    var longer := calls + [Poll(cmd, r)];
    assert longer[..|longer| - 1] == calls;
  }

  /** A driver's step keeps what its place says. */
  lemma DriveFits(n: Guarded, pc: Pc, now: int, agent: Agent, calls: seq<Call>)
    requires Fits(pc, n, calls, now) && Drive(n, pc, now, agent).Some?
    ensures var m := Drive(n, pc, now, agent).value;
      Fits(m.pc, m.node, calls + if m.call.Some? then [m.call.value] else [], now)
  {
    var m := Drive(n, pc, now, agent).value;
    match pc {
      case Preparing => assert calls + [Prepare(agent.prepare)] == [Prepare(agent.prepare)];
      case Querying(cmd, start, k) => PolledGrows(calls, cmd, k, agent.poll);
      case Running(cmd) =>
        var longer := calls + [Run(agent.run)];
        assert longer[..|longer| - 1] == calls;
      case _ => assert calls + [] == calls;
    }
  }

  lemma NextKeepsInv(g: System, a: Act, g': System)
    requires Inv(g) && Next(g, a, g')
    ensures Inv(g')
  {
    match a
    case Move(i, agent) => DriveFits(g.node, g.drivers[i], g.clock, agent, g.calls);
    case _ =>
  }

  lemma FitsDisciplined(pc: Pc, n: Guarded, calls: seq<Call>, now: int)
    requires Fits(pc, n, calls, now)
    ensures Disciplined(calls)
  {
  }

  lemma {:induction false} RunKeepsInv(gs: seq<System>, acts: seq<Act>, i: nat)
    requires Runs(gs, acts) && gs[0] == IDLE && i < |gs|
    ensures Inv(gs[i])
  {
    if i > 0 {
      RunKeepsInv(gs, acts, i - 1);
      NextKeepsInv(gs[i - 1], acts[i - 1], gs[i]);
    }
  }

  // ---------- what follows ----------

  /**
   Over all interleavings: at most one driver ever starts, its log is disciplined (so
   prepare and run are each sent at most once and run only after SUCCEEDED was polled for
   the id that prepare returned), and neither compare-and-swap of a driver fails.
   */
  lemma DriverProtocol(gs: seq<System>, acts: seq<Act>, i: nat)
    requires Runs(gs, acts) && gs[0] == IDLE && i < |gs|
    ensures gs[i].pending + |gs[i].drivers| <= 1
    ensures Disciplined(gs[i].calls)
    ensures forall pc | pc in gs[i].drivers :: !pc.LostRace?
  {
    RunKeepsInv(gs, acts, i);
    var g := gs[i];
    if g.drivers != [] {
      FitsDisciplined(g.drivers[0], g.node, g.calls, g.clock);
      assert g.drivers == [g.drivers[0]];
    }
  }

  /** What a disciplined log says about a run command in it. */
  lemma RunAfterSuccess(calls: seq<Call>, r: nat)
    requires Disciplined(calls) && r < |calls| && calls[r].Run?
    ensures r == |calls| - 1 && r >= 2
    ensures calls[0] == Prepare(Id(CommandOf(calls))) && calls[r - 1] == Poll(CommandOf(calls), Status("SUCCEEDED"))
    ensures forall i | 0 <= i < r :: !calls[i].Run?
    ensures forall i | 0 < i <= r :: !calls[i].Prepare?
  {
    var n := |calls| - 1;
    var before := calls[..n];
    assert forall i | 0 <= i < n :: calls[i] == before[i];
    if calls[n].Run? {
      assert forall i | 0 <= i < n - 1 :: before[i] == before[..n - 1][i];
    }
  }

  /** The state moves only along its edges; done and failed are absorbing. */
  lemma StateMoves(gs: seq<System>, acts: seq<Act>, i: nat)
    requires Runs(gs, acts) && gs[0] == IDLE && i < |acts|
    ensures gs[i + 1].node.state == gs[i].node.state || Edge(gs[i].node.state, gs[i + 1].node.state)
    ensures gs[i].node.state in {Done, Failed} ==> gs[i + 1].node.state == gs[i].node.state
  {
    RunKeepsInv(gs, acts, i);
    assert Next(gs[i], acts[i], gs[i + 1]);
  }

  /** Steps a driver may still take. */
  function Rank(pc: Pc): int {
    match pc
    case Starting => 3 * MAX_QUERIES + 9
    case HasUrl => 3 * MAX_QUERIES + 8
    case Preparing => 3 * MAX_QUERIES + 7
    case Prepared(_) => 3 * MAX_QUERIES + 6
    case Querying(_, _, k) => 3 * (MAX_QUERIES - k) + 5
    case Checking(_, _, k) => 3 * (MAX_QUERIES - k) + 4
    case Waiting(_, _, k) => 3 * (MAX_QUERIES - k) + 6
    case Succeeded(_) => 4
    case Running(_) => 3
    case Finishing(_) => 2
    case Marking(_) => 1
    case Failing => 1
    case _ => 0
  }

  lemma DriveDescends(n: Guarded, pc: Pc, now: int, agent: Agent, calls: seq<Call>)
    requires Fits(pc, n, calls, now) && Drive(n, pc, now, agent).Some?
    ensures 0 <= Rank(Drive(n, pc, now, agent).value.pc) < Rank(pc)
  {
    DriveFits(n, pc, now, agent, calls);
  }

  function DriverSteps(acts: seq<Act>): nat {
    if acts == [] then 0
    else DriverSteps(acts[..|acts| - 1]) + if acts[|acts| - 1].Move? then 1 else 0
  }

  ghost function Left(g: System): int {
    if g.drivers != [] then Rank(g.drivers[0]) else Rank(Starting)
  }

  /** No run, however long, contains more than a fixed number of driver steps. */
  lemma {:induction false} DriverStepsBounded(gs: seq<System>, acts: seq<Act>, i: nat)
    requires Runs(gs, acts) && gs[0] == IDLE && i < |gs|
    ensures DriverSteps(acts[..i]) + Left(gs[i]) <= Rank(Starting) && Left(gs[i]) >= 0
  {
    RunKeepsInv(gs, acts, i);
    if i > 0 {
      DriverStepsBounded(gs, acts, i - 1);
      RunKeepsInv(gs, acts, i - 1);
      assert acts[..i][..i - 1] == acts[..i - 1];
      var g := gs[i - 1];
      if acts[i - 1].Move? {
        DriveDescends(g.node, g.drivers[0], g.clock, acts[i - 1].agent, g.calls);
      }
    }
  }

  /** A driver that has not stopped can always move, at once or after waiting for its tick. */
  lemma NeverStuck(g: System, agent: Agent)
    requires Inv(g) && g.drivers != [] && !Stopped(g.drivers[0])
    ensures exists until, later, g' :: Next(g, Tick(until), later) && Next(later, Move(0, agent), g')
  {
    var pc := g.drivers[0];
    var until := if pc.Waiting? && pc.start + TICK * pc.k > g.clock then pc.start + TICK * pc.k else g.clock;
    var later := g.(clock := until);
    var m := Drive(later.node, pc, later.clock, agent).value;
    var g' := later.(node := m.node, drivers := later.drivers[0 := m.pc],
                     calls := later.calls + if m.call.Some? then [m.call.value] else []);
    assert Next(g, Tick(until), later) && Next(later, Move(0, agent), g');
  }

  /** What a stopped driver leaves: it did not stop short of a call that was due. */
  lemma StoppedLog(gs: seq<System>, acts: seq<Act>, i: nat)
    requires Runs(gs, acts) && gs[0] == IDLE && i < |gs|
    requires gs[i].drivers != [] && Stopped(gs[i].drivers[0])
    ensures gs[i].node.state == Done <==> gs[i].calls != [] && gs[i].calls[|gs[i].calls| - 1] == Run(true)
    ensures if gs[i].drivers[0].NoUrl? then gs[i].node.state == New && gs[i].calls == []
            else gs[i].node.state in {Done, Failed} && Complete(gs[i].calls)
  {
    RunKeepsInv(gs, acts, i);
  }

  /** The driver asks for the status at step `i`, and this is the answer. */
  ghost predicate AnsweredAt(gs: seq<System>, acts: seq<Act>, i: nat, answer: PollReply) {
    && Runs(gs, acts) && gs[0] == IDLE && i < |acts|
    && gs[i].drivers != [] && gs[i].drivers[0].Querying?
    && acts[i].Move? && acts[i].i == 0 && acts[i].agent.poll == answer
  }

  /** An agent that reports FAILED is sent nothing more, and its node fails. */
  lemma {:induction false} FailureEnds(gs: seq<System>, acts: seq<Act>, i: nat, j: nat)
    requires AnsweredAt(gs, acts, i, Status("FAILED")) && i < j < |gs|
    ensures gs[j].calls == gs[i].calls + [Poll(gs[i].drivers[0].cmd, Status("FAILED"))]
    ensures gs[j].drivers == [Failing] || (gs[j].drivers == [Ended] && gs[j].node.state == Failed)
    decreases j
  {
    assert Next(gs[j - 1], acts[j - 1], gs[j]);
    RunKeepsInv(gs, acts, j - 1);
    if j > i + 1 {
      FailureEnds(gs, acts, i, j - 1);
    }
  }

  /** Where a driver stands after success was reported, and what it has sent since. */
  ghost predicate AfterSuccess(g: System, calls: seq<Call>) {
    |g.drivers| == 1 &&
    match g.drivers[0]
    case Succeeded(_) => g.calls == calls
    case Running(_) => g.calls == calls
    case Finishing(_) => g.calls == calls + [Run(true)]
    case Marking(_) => g.calls == calls + [Run(true)]
    case Failing => g.calls == calls + [Run(false)]
    case Ended => exists ok :: g.calls == calls + [Run(ok)] && g.node.state == if ok then Done else Failed
    case _ => false
  }

  lemma SuccessStarts(g: System, a: Act, g': System)
    requires Inv(g) && Next(g, a, g') && g.drivers != [] && g.drivers[0].Querying?
    requires a.Move? && a.i == 0 && a.agent.poll == Status("SUCCEEDED")
    ensures AfterSuccess(g', g.calls + [Poll(g.drivers[0].cmd, Status("SUCCEEDED"))])
  {
  }

  lemma SuccessGoesOn(g: System, a: Act, g': System, calls: seq<Call>)
    requires Inv(g) && Next(g, a, g') && AfterSuccess(g, calls)
    ensures AfterSuccess(g', calls)
  {
    if a.Move? {
      assert a.i == 0;
      assert g.calls + [] == g.calls;
    }
  }

  /** An agent that reports SUCCEEDED is sent run next, and its answer decides between done and failed. */
  lemma {:induction false} SuccessRuns(gs: seq<System>, acts: seq<Act>, i: nat, j: nat)
    requires AnsweredAt(gs, acts, i, Status("SUCCEEDED")) && i < j < |gs|
    ensures AfterSuccess(gs[j], gs[i].calls + [Poll(gs[i].drivers[0].cmd, Status("SUCCEEDED"))])
    decreases j
  {
    assert Next(gs[j - 1], acts[j - 1], gs[j]);
    RunKeepsInv(gs, acts, j - 1);
    if j == i + 1 {
      SuccessStarts(gs[i], acts[i], gs[j]);
    } else {
      SuccessRuns(gs, acts, i, j - 1);
      SuccessGoesOn(gs[j - 1], acts[j - 1], gs[j], gs[i].calls + [Poll(gs[i].drivers[0].cmd, Status("SUCCEEDED"))]);
    }
  }

  /** Any other answer is followed by another query of the same command, or by giving up past the two hours. */
  lemma OthersWait(g: System, a: Act, g': System)
    requires Next(g, a, g') && a.Move? && a.i < |g.drivers| && g.drivers[a.i].Querying?
    requires a.agent.poll != Status("SUCCEEDED") && a.agent.poll != Status("FAILED")
    ensures var pc := g.drivers[a.i]; g'.node == g.node && g'.drivers[a.i] == Checking(pc.cmd, pc.start, pc.k)
    ensures forall now, agent, pc | pc == g'.drivers[a.i] ::
              Drive(g'.node, pc, now, agent) ==
              Some(Moved(g'.node, if now > pc.start + 7200 then Failing else Waiting(pc.cmd, pc.start, pc.k + 1), None))
  {
  }

  /** The snapshot is taken at step `i`. */
  ghost predicate SnapshotAt(gs: seq<System>, acts: seq<Act>, i: nat) {
    && Runs(gs, acts) && gs[0] == IDLE && i < |acts|
    && gs[i].drivers != [] && gs[i].drivers[0].Starting? && acts[i].Move? && acts[i].i == 0
  }

  /** After the snapshot the driver has given up for want of a URL exactly if there was none. */
  lemma {:induction false} AfterSnapshot(gs: seq<System>, acts: seq<Act>, i: nat, j: nat)
    requires SnapshotAt(gs, acts, i) && i < j < |gs|
    ensures gs[j].drivers != [] && !gs[j].drivers[0].Starting?
    ensures gs[j].drivers[0].NoUrl? <==> gs[i].node.callbackURL == ""
    decreases j
  {
    assert Next(gs[j - 1], acts[j - 1], gs[j]);
    RunKeepsInv(gs, acts, j - 1);
    if j > i + 1 {
      AfterSnapshot(gs, acts, i, j - 1);
    }
  }

  /**
   The callback URL at the snapshot decides the whole run: when the driver has stopped, its
   node is done or failed exactly if that URL was not empty.  Then it made every call that was
   due, and is done exactly if run was sent and accepted; else it sent nothing.
   */
  lemma SnapshotDecides(gs: seq<System>, acts: seq<Act>, i: nat, j: nat)
    requires SnapshotAt(gs, acts, i) && i < j < |gs| && gs[j].drivers != [] && Stopped(gs[j].drivers[0])
    ensures gs[j].node.state in {Done, Failed} <==> gs[i].node.callbackURL != ""
    ensures if gs[i].node.callbackURL != "" then Complete(gs[j].calls) else gs[j].node.state == New && gs[j].calls == []
    ensures gs[j].node.state == Done <==> gs[j].calls != [] && gs[j].calls[|gs[j].calls| - 1] == Run(true)
  {
    AfterSnapshot(gs, acts, i, j);
    StoppedLog(gs, acts, j);
  }

  /**
   The cost of an empty URL at the snapshot: the node stays new for good, and no later
   heartbeat, whatever URL it brings, sends a single command.
   */
  lemma {:induction false} NoUrlForever(gs: seq<System>, acts: seq<Act>, i: nat, j: nat)
    requires Runs(gs, acts) && gs[0] == IDLE && i <= j < |gs|
    requires gs[i].drivers == [NoUrl]
    ensures gs[j].drivers == [NoUrl] && gs[j].node.state == New && gs[j].calls == []
    decreases j
  {
    RunKeepsInv(gs, acts, j);
    if i < j {
      NoUrlForever(gs, acts, i, j - 1);
      RunKeepsInv(gs, acts, j - 1);
      assert Next(gs[j - 1], acts[j - 1], gs[j]);
    }
  }
}
