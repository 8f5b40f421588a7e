/** The deploy driver as it runs: effects on a node object and the polling loop with its deadline. */
module Deploy {
  import opened Node
  import opened Driver
  import opened DeploySteps
  import opened Tracker

  /**
   `pollUntilTerminal` under the background context, which is never cancelled.  `clock(k)`
   is the time when the deadline is checked after query `k`; the k-th tick comes no earlier
   than k periods after the start.
   */
  method PollUntilTerminal(n: Node, replies: nat -> PollReply, clock: nat -> int, start: int) returns (ok: bool, queries: nat)
    requires forall k: nat :: clock(k) >= start + 5 * k
    modifies n
    ensures 1 <= queries <= 1442
    ensures ok <==> replies(queries - 1) == Status("SUCCEEDED")
    ensures !ok ==> replies(queries - 1) == Status("FAILED") || clock(queries - 1) > start + 7200
    ensures forall k: nat | k < queries - 1 :: Undecided(replies, clock, start, k)
    ensures replies(0) == Status("FAILED") ==> queries == 1 && !ok
    ensures n.Value() == if ok then old(n.Value()) else old(n.Value()).(state := Failed)
  {
    var deadline := start + DEADLINE;
    var k: nat := 0;
    while true
      invariant forall j: nat | j < k :: Undecided(replies, clock, start, j)
      invariant k > 0 ==> replies(0) != Status("FAILED")
      invariant n.Value() == old(n.Value())
      invariant k < MAX_QUERIES
      decreases MAX_QUERIES - k
    {
      var status := replies(k);
      if status != PollError {
        if status == SUCCEEDED {
          return true, k + 1;
        }
        if status == FAILED {
          n.ForceState(Failed);
          return false, k + 1;
        }
      }
      if clock(k) > deadline {
        n.ForceState(Failed);
        return false, k + 1;
      }
      assert TICK * k <= DEADLINE;
      k := k + 1;
    }
  }

  /** Query `k` ends nothing: the agent reports neither success nor failure, and the two hours are not over. */
  predicate Undecided(replies: nat -> PollReply, clock: nat -> int, start: int, k: nat) {
    replies(k) != Status("SUCCEEDED") && replies(k) != Status("FAILED") && clock(k) <= start + 7200
  }

  /** The bound is reached: an agent that keeps answering RUNNING, with ticks exactly on time, is asked that often. */
  lemma BoundIsTight(start: int, queries: nat)
    requires queries > 0
    requires var replies := (_: nat) => Status("RUNNING"); var clock := (k: nat) => start + 5 * k;
      && !Undecided(replies, clock, start, queries - 1)
      && forall k: nat | k < queries - 1 :: Undecided(replies, clock, start, k)
    ensures queries == 1442
  {
    var replies := (_: nat) => Status("RUNNING");
    var clock := (k: nat) => start + 5 * k;
    assert "RUNNING"[0] != "SUCCEEDED"[0] && "RUNNING"[0] != "FAILED"[0];
    assert queries > 1442 ==> Undecided(replies, clock, start, 1441);
  }

  /** The calls of a deployment whose prepare returned `cmd` and whose polling made `queries` queries. */
  function PollCalls(replies: nat -> PollReply, cmd: string, queries: nat): seq<Call> {
    [Prepare(Id(cmd))] + Asked(replies, cmd, 0, queries)
  }

  /** The whole exchange of a deployment: every call that is due is made, and no other. */
  ghost predicate Exchange(calls: seq<Call>, agent: Agent, replies: nat -> PollReply, clock: nat -> int, start: int) {
    if agent.prepare.Id? && agent.prepare.cmd != ""
    then exists queries :: 1 <= queries <= MAX_QUERIES && ExchangeOf(calls, agent, replies, clock, start, queries)
    else calls == [Prepare(agent.prepare)]
  }

  /** The same with the number of queries: polling stops at the first terminal answer or past the deadline. */
  ghost predicate ExchangeOf(calls: seq<Call>, agent: Agent, replies: nat -> PollReply, clock: nat -> int,
                             start: int, queries: nat)
    requires queries >= 1 && agent.prepare.Id?
  {
    && StopsAt(replies, clock, start, queries - 1) && (forall k: nat | k < queries - 1 :: !StopsAt(replies, clock, start, k))
    && calls == PollCalls(replies, agent.prepare.cmd, queries)
                + if replies(queries - 1) == SUCCEEDED then [Run(agent.run)] else []
  }

  /**
   `driveDeploy` without interference (heartbeats touch neither the state nor the command
   id).  It marks the node deployed exactly when it ends in done, and it is a run of the
   driver machine from its start to its end.
   */
  method DriveDeploy(n: Node, tracker: Tracker, agent: Agent, replies: nat -> PollReply, clock: nat -> int, start: int,
                     imageHash: string, now: int, diskOk: bool) returns (calls: seq<Call>)
    requires forall k: nat :: clock(k) >= start + 5 * k
    modifies n, tracker, tracker.disk
    ensures Disciplined(calls) && Obeys(calls, agent)
    ensures old(n.callbackURL) == "" || old(n.state) != New ==> calls == [] && n.Value() == old(n.Value())
    ensures old(n.callbackURL) != "" && old(n.state) == New ==>
      && Exchange(calls, agent, replies, clock, start) && HeedsVerdict(calls, agent, replies, clock, start)
      && calls != [] && n.state in {Done, Failed}
      && (n.state == Done <==> calls[|calls| - 1] == Run(true))
    ensures n.callbackURL == old(n.callbackURL) && n.driverStarted == old(n.driverStarted)
    ensures n.lastHeartbeat == old(n.lastHeartbeat)
    ensures n.commandID == if CommandOf(calls) == "" then old(n.commandID) else CommandOf(calls)
    ensures Steady(clock, start) ==> Carries(old(n.Value()), n.Value(), calls, start)
    ensures tracker.deployed == if calls != [] && calls[|calls| - 1] == Run(true)
                                then Mark(old(tracker.deployed), n.macs, Record(n.uuid, now, imageHash))
                                else old(tracker.deployed)
    ensures tracker.disk.content == if calls != [] && calls[|calls| - 1] == Run(true) && diskOk
                                    then Holds(tracker.deployed) else old(tracker.disk.content)
  {
    ghost var v := n.Value();
    if n.callbackURL == "" {
      NoUrlCarries(v, start);
      return [];
    }
    var claimed := n.Transition(New, Deploying);
    if !claimed {
      LostRaceCarries(v, start);
      return [];
    }
    calls := [Prepare(agent.prepare)];
    if agent.prepare == PrepareError {
      n.ForceState(Failed);
      UnpreparedCarries(v, start, agent);
      return;
    }
    var cmdID := if agent.prepare.Id? then agent.prepare.cmd else "";
    if cmdID == "" {
      n.ForceState(Failed);
      UnpreparedCarries(v, start, agent);
      return;
    }
    calls := PollAndRun(n, tracker, agent, replies, clock, start, imageHash, now, diskOk, v);
  }

  /** The rest of `driveDeploy`, once prepare has returned the id of a command. */
  method PollAndRun(n: Node, tracker: Tracker, agent: Agent, replies: nat -> PollReply, clock: nat -> int, start: int,
                    imageHash: string, now: int, diskOk: bool, ghost v: Guarded) returns (calls: seq<Call>)
    requires forall k: nat :: clock(k) >= start + 5 * k
    requires agent.prepare.Id? && agent.prepare.cmd != "" && n.Value() == v.(state := Deploying)
    requires v.callbackURL != "" && v.state == New
    modifies n, tracker, tracker.disk
    ensures Exchange(calls, agent, replies, clock, start) && HeedsVerdict(calls, agent, replies, clock, start)
    ensures calls != [] && Disciplined(calls) && Obeys(calls, agent) && CommandOf(calls) == agent.prepare.cmd
    ensures var ran := calls[|calls| - 1] == Run(true);
      && n.Value() == v.(commandID := agent.prepare.cmd, state := if ran then Done else Failed)
      && tracker.deployed == (if ran then Mark(old(tracker.deployed), n.macs, Record(n.uuid, now, imageHash))
                              else old(tracker.deployed))
      && tracker.disk.content == (if ran && diskOk then Holds(tracker.deployed) else old(tracker.disk.content))
    ensures Steady(clock, start) ==> Carries(v, n.Value(), calls, start)
  {
    var cmdID := agent.prepare.cmd;
    n.SetCommandID(cmdID);
    var ok, queries := PollUntilTerminal(n, replies, clock, start);
    calls := PollCalls(replies, cmdID, queries) + if ok then [Run(agent.run)] else [];
    PollEnds(replies, clock, start, queries, ok);
    DeploymentCarries(v, start, agent, replies, clock, queries, ok, calls);
    FinishedLog(agent, replies, clock, start, queries, ok, calls);
    if ok {
      RunAndMark(n, tracker, agent.run, imageHash, now, diskOk);
    }
  }

  /** What a finished deployment has sent. */
  lemma FinishedLog(agent: Agent, replies: nat -> PollReply, clock: nat -> int, start: int, queries: nat, ok: bool,
                    calls: seq<Call>)
    requires agent.prepare.Id? && agent.prepare.cmd != "" && 1 <= queries <= MAX_QUERIES
    requires StopsAt(replies, clock, start, queries - 1) && forall k: nat | k < queries - 1 :: !StopsAt(replies, clock, start, k)
    requires ok <==> replies(queries - 1) == SUCCEEDED
    requires calls == PollCalls(replies, agent.prepare.cmd, queries) + if ok then [Run(agent.run)] else []
    ensures Exchange(calls, agent, replies, clock, start) && HeedsVerdict(calls, agent, replies, clock, start)
    ensures calls != [] && Disciplined(calls) && Obeys(calls, agent) && CommandOf(calls) == agent.prepare.cmd
    ensures calls[|calls| - 1] == Run(true) <==> ok && agent.run
  {
    var polls := PollCalls(replies, agent.prepare.cmd, queries);
    PollCallsDisciplined(replies, clock, start, agent.prepare.cmd, queries);
    if ok {
      RunEnds(polls, agent.prepare.cmd, agent.run);
    } else {
      assert polls + [] == polls;
    }
    assert ExchangeOf(calls, agent, replies, clock, start, queries);
    InAgentsWords(calls, agent, replies, clock, start, queries);
  }

  /** In the agent's own words: run is sent once, last, and directly after a query answered SUCCEEDED; FAILED ends the log. */
  ghost predicate Obeys(calls: seq<Call>, agent: Agent) {
    && (forall i | 0 <= i < |calls| && calls[i].Run? ::
         i == |calls| - 1 && i >= 2 && calls[i] == Run(agent.run)
         && calls[i - 1].Poll? && calls[i - 1].answer == Status("SUCCEEDED"))
    && (forall i | 0 <= i < |calls| && calls[i].Poll? ::
         && agent.prepare == Id(calls[i].cmd) && calls[i].cmd != ""
         && (calls[i].answer == Status("SUCCEEDED") ==> i == |calls| - 2 && calls[i + 1].Run?)
         && (calls[i].answer == Status("FAILED") ==> i == |calls| - 1))
  }

  /** The answer to query `k` is the first that ends polling, and it is this one. */
  ghost predicate FirstVerdict(replies: nat -> PollReply, clock: nat -> int, start: int, k: nat, status: string) {
    replies(k) == Status(status) && forall j: nat | j < k :: Undecided(replies, clock, start, j)
  }

  /** A first verdict decides the whole exchange: SUCCEEDED is followed by run, FAILED by nothing. */
  ghost predicate HeedsVerdict(calls: seq<Call>, agent: Agent, replies: nat -> PollReply, clock: nat -> int, start: int) {
    agent.prepare.Id? && agent.prepare.cmd != "" ==>
      && (forall k: nat | FirstVerdict(replies, clock, start, k, "SUCCEEDED") ::
           |calls| == k + 3 && calls[k + 2] == Run(agent.run))
      && (forall k: nat | FirstVerdict(replies, clock, start, k, "FAILED") ::
           |calls| == k + 2 && calls[k + 1] == Poll(agent.prepare.cmd, Status("FAILED")))
  }

  lemma PollEnds(replies: nat -> PollReply, clock: nat -> int, start: int, queries: nat, ok: bool)
    requires queries >= 1 && (ok <==> replies(queries - 1) == Status("SUCCEEDED"))
    requires !ok ==> replies(queries - 1) == Status("FAILED") || clock(queries - 1) > start + 7200
    requires forall k: nat | k < queries - 1 :: Undecided(replies, clock, start, k)
    ensures StopsAt(replies, clock, start, queries - 1)
    ensures forall k: nat | k < queries - 1 :: !StopsAt(replies, clock, start, k)
  {
    forall k: nat | k < queries - 1 ensures !StopsAt(replies, clock, start, k) {
      assert Undecided(replies, clock, start, k);
    }
  }

  lemma InAgentsWords(calls: seq<Call>, agent: Agent, replies: nat -> PollReply, clock: nat -> int, start: int, queries: nat)
    requires agent.prepare.Id? && agent.prepare.cmd != "" && queries >= 1
    requires ExchangeOf(calls, agent, replies, clock, start, queries)
    ensures Obeys(calls, agent) && HeedsVerdict(calls, agent, replies, clock, start)
  {
    forall k: nat | k < queries - 1 ensures Undecided(replies, clock, start, k) {
      assert !StopsAt(replies, clock, start, k);
    }
    forall i | 1 <= i <= queries ensures calls[i] == Poll(agent.prepare.cmd, replies(i - 1)) {
    }
    forall k: nat | FirstVerdict(replies, clock, start, k, "SUCCEEDED") ensures k == queries - 1 {
      VerdictIsLast(replies, clock, start, queries, k, "SUCCEEDED");
    }
    forall k: nat | FirstVerdict(replies, clock, start, k, "FAILED") ensures k == queries - 1 {
      VerdictIsLast(replies, clock, start, queries, k, "FAILED");
    }
    AnswersInWords(calls, agent, replies, clock, start, queries);
  }

  lemma VerdictIsLast(replies: nat -> PollReply, clock: nat -> int, start: int, queries: nat, k: nat, status: string)
    requires queries >= 1 && status in {"SUCCEEDED", "FAILED"} && FirstVerdict(replies, clock, start, k, status)
    requires StopsAt(replies, clock, start, queries - 1)
    requires forall j: nat | j < queries - 1 :: !StopsAt(replies, clock, start, j)
    ensures k == queries - 1
  {
    assert StopsAt(replies, clock, start, k);
    assert queries - 1 < k ==> Undecided(replies, clock, start, queries - 1);
  }

  lemma AnswersInWords(calls: seq<Call>, agent: Agent, replies: nat -> PollReply, clock: nat -> int, start: int, queries: nat)
    requires agent.prepare.Id? && agent.prepare.cmd != "" && queries >= 1
    requires ExchangeOf(calls, agent, replies, clock, start, queries)
    ensures Obeys(calls, agent)
  {
    assert calls[0] == Prepare(agent.prepare);
    forall i | 1 <= i <= queries
      ensures calls[i] == Poll(agent.prepare.cmd, replies(i - 1))
      ensures calls[i].answer in {Status("SUCCEEDED"), Status("FAILED")} ==> i == queries
    {
      assert i < queries ==> !StopsAt(replies, clock, start, i - 1);
    }
    if replies(queries - 1) == Status("SUCCEEDED") {
      assert |calls| == queries + 2 && calls[queries + 1] == Run(agent.run);
    } else {
      assert |calls| == queries + 1;
    }
  }

  /** The end of `driveDeploy`: the run command with its answer, and the mark of a node that ran. */
  method RunAndMark(n: Node, tracker: Tracker, runs: bool, imageHash: string, now: int, diskOk: bool)
    requires n.state == Deploying
    modifies n, tracker, tracker.disk
    ensures n.Value() == old(n.Value()).(state := if runs then Done else Failed)
    ensures tracker.deployed == if runs then Mark(old(tracker.deployed), n.macs, Record(n.uuid, now, imageHash))
                                else old(tracker.deployed)
    ensures tracker.disk.content == if runs && diskOk then Holds(tracker.deployed) else old(tracker.disk.content)
  {
    var swapped := n.Transition(Deploying, RunImage);
    assert swapped;
    if !runs {
      n.ForceState(Failed);
      return;
    }
    n.ForceState(Done);
    var err := tracker.MarkDeployed(n.macs, n.uuid, imageHash, now, diskOk);
  }

  /** PreparedCarries, in the terms of `PollAndRun`. */
  lemma DeploymentCarries(v: Guarded, start: int, agent: Agent, replies: nat -> PollReply, clock: nat -> int, queries: nat,
                          ok: bool, calls: seq<Call>)
    requires v.callbackURL != "" && v.state == New && agent.prepare.Id? && agent.prepare.cmd != "" && queries >= 1
    requires StopsAt(replies, clock, start, queries - 1)
    requires forall k: nat | k < queries - 1 :: !StopsAt(replies, clock, start, k)
    requires ok <==> replies(queries - 1) == SUCCEEDED
    requires calls == PollCalls(replies, agent.prepare.cmd, queries) + if ok then [Run(agent.run)] else []
    ensures Steady(clock, start) ==>
      Carries(v, v.(commandID := agent.prepare.cmd, state := if ok && agent.run then Done else Failed), calls, start)
  {
    if Steady(clock, start) {
      PreparedCarries(v, start, agent, replies, clock, queries, PollCalls(replies, agent.prepare.cmd, queries));
    }
  }

  /** A run command sent after a poll reported success completes the log. */
  lemma RunEnds(calls: seq<Call>, cmd: string, ok: bool)
    requires PolledUntil(calls, cmd, SUCCEEDED) && CommandOf(calls) == cmd && |calls| <= MAX_QUERIES + 1
    ensures var longer := calls + [Run(ok)]; Disciplined(longer) && longer[|longer| - 1] == Run(ok)
  {
    var longer := calls + [Run(ok)];
    assert longer[..|longer| - 1] == calls;
  }

  lemma PollCallsDisciplined(replies: nat -> PollReply, clock: nat -> int, start: int, cmd: string, queries: nat)
    requires cmd != "" && 1 <= queries <= MAX_QUERIES
    requires forall k: nat | k < queries - 1 :: !StopsAt(replies, clock, start, k)
    ensures var calls := PollCalls(replies, cmd, queries);
      && Disciplined(calls) && calls[|calls| - 1].Poll? && |calls| == queries + 1
      && (replies(queries - 1) == SUCCEEDED ==> PolledUntil(calls, cmd, SUCCEEDED))
      && CommandOf(calls) == cmd
  {
    var calls := PollCalls(replies, cmd, queries);
    var before := calls[..queries];
    forall i | 1 <= i < queries
      ensures before[i] == Poll(cmd, replies(i - 1)) && !Terminal(replies(i - 1))
    {
      assert !StopsAt(replies, clock, start, i - 1);
    }
    assert Polled(before, cmd, queries - 1);
    PolledGrows(before, cmd, queries - 1, replies(queries - 1));
    assert before + [Poll(cmd, replies(queries - 1))] == calls;
  }
}
