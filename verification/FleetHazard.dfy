/** A run on which a deployment record is lost: the way there, step by step. */
module FleetHazard {
  import opened Wrappers
  import opened MacText
  import opened Node
  import opened Driver
  import opened DeploySteps
  import opened Fleet
  import opened FleetGate
  import Store
  import Ironic
  import Tracker

  /** Consecutive steps, from any fleet. */
  ghost predicate Path(fs: seq<Fleet>, es: seq<Event>) {
    |fs| == |es| + 1 && forall i {:trigger es[i]} | 0 <= i < |es| :: Step(fs[i], es[i], fs[i + 1])
  }

  ghost predicate Reaches(f: Fleet, f': Fleet) {
    exists fs, es :: Path(fs, es) && fs[0] == f && fs[|es|] == f'
  }

  lemma Joined(fs: seq<Fleet>, es: seq<Event>, hs: seq<Fleet>, ds: seq<Event>)
    requires Path(fs, es) && Path(hs, ds) && fs[|es|] == hs[0]
    ensures Path(fs[..|es|] + hs, es + ds)
  {
    var all, both := fs[..|es|] + hs, es + ds;
    forall i | 0 <= i < |both| ensures Step(all[i], both[i], all[i + 1]) {
      if i < |es| {
        assert Step(fs[i], es[i], fs[i + 1]);
      } else {
        assert Step(hs[i - |es|], ds[i - |es|], hs[i - |es| + 1]);
      }
    }
  }

  lemma ReachesOn(a: Fleet, b: Fleet, c: Fleet)
    requires Reaches(a, b) && Reaches(b, c)
    ensures Reaches(a, c)
  {
    var fs, es :| Path(fs, es) && fs[0] == a && fs[|es|] == b;
    var hs, ds :| Path(hs, ds) && hs[0] == b && hs[|ds|] == c;
    Joined(fs, es, hs, ds);
    var all := fs[..|es|] + hs;
    assert all[0] == a && all[|es + ds|] == c;
  }

  lemma OneStep(f: Fleet, e: Event, f': Fleet)
    requires Step(f, e, f')
    ensures Reaches(f, f')
  {
    assert Path([f, f'], [e]);
  }

  // ---------- a node is deployed up to its mark ----------

  const URL := "http://agent"
  const ID := "id"

  /** The node after heartbeat, compare-and-swap, prepare. */
  const BEATEN := FRESH.(callbackURL := URL, driverStarted := true)
  const TAKEN := BEATEN.(state := Deploying)
  const NAMED := TAKEN.(commandID := ID)

  const ASKED := [Prepare(Id(ID)), Poll(ID, SUCCEEDED)]

  /** A deployment that is about to mark its node. */
  const DEPLOYED := Sole(NAMED.(state := Done), Marking(ID), ASKED + [Run(true)], 0)

  const AGENT := Agent(Id(ID), SUCCEEDED, true)

  const SYSTEMS := [
    IDLE, System(BEATEN, 1, [], [], 0), Sole(BEATEN, Starting, [], 0), Sole(BEATEN, HasUrl, [], 0),
    Sole(TAKEN, Preparing, [], 0),
    Sole(TAKEN, Prepared(ID), [Prepare(Id(ID))], 0), Sole(NAMED, Querying(ID, 0, 0), [Prepare(Id(ID))], 0),
    Sole(NAMED, Succeeded(ID), ASKED, 0), Sole(NAMED.(state := RunImage), Running(ID), ASKED, 0),
    Sole(NAMED.(state := RunImage), Finishing(ID), ASKED + [Run(true)], 0), DEPLOYED]

  function ActAt(i: nat): Act {
    if i == 0 then Beat(URL) else if i == 1 then Spawn else Move(0, AGENT)
  }

  lemma DeployingStep(i: nat)
    requires i < 10
    ensures Next(SYSTEMS[i], ActAt(i), SYSTEMS[i + 1]) && !Marks(SYSTEMS[i], ActAt(i))
  {
    if i >= 2 {
      assert SYSTEMS[i].drivers != [] && SYSTEMS[i] == Sole(SYSTEMS[i].node, SYSTEMS[i].drivers[0], SYSTEMS[i].calls, 0);
      DriverStep(SYSTEMS[i].node, SYSTEMS[i].drivers[0], SYSTEMS[i].calls);
    }
  }

  /** A step of a sole driver, in the terms of its machine. */
  lemma DriverStep(n: Guarded, pc: Pc, calls: seq<Call>)
    requires Drive(n, pc, 0, AGENT).Some?
    ensures var m := Drive(n, pc, 0, AGENT).value;
      Next(Sole(n, pc, calls, 0), Move(0, AGENT), Sole(m.node, m.pc, calls + if m.call.Some? then [m.call.value] else [], 0))
  {
    var m := Drive(n, pc, 0, AGENT).value;
    assert [pc][0 := m.pc] == [m.pc];
  }

  lemma {:induction false} NodeDeploys(f: Fleet, u: string, i: nat)
    requires f.tracker.Some? && u in f.systems && u in f.registry.macs && f.systems[u] == IDLE && i <= 10
    ensures Reaches(f, f.(systems := f.systems[u := SYSTEMS[i]]))
  {
    if i == 0 {
      assert f.systems[u := IDLE] == f.systems;
      assert Path([f], []);
    } else {
      var g, h := f.(systems := f.systems[u := SYSTEMS[i - 1]]), f.(systems := f.systems[u := SYSTEMS[i]]);
      NodeDeploys(f, u, i - 1);
      DeployingStep(i - 1);
      assert g.systems[u := SYSTEMS[i]] == h.systems;
      OneStep(g, Local(u, ActAt(i - 1), Tracker.Record("", 0, ""), true), h);
      ReachesOn(f, g, h);
    }
  }

  // ---------- the record is lost ----------

  /** What the run is about: `a` is deployed, `b` is forgotten. */
  ghost predicate Texts(a: string, b: string) {
    a != "" && ',' !in a && Unpadded(a) && Canon(a) == a && Canon(b) == b && a != b
  }

  lemma ListedAlone(a: string)
    requires a != "" && ',' !in a && Unpadded(a) && Canon(a) == a
    ensures Store.Usable(Listed(a)) == [a]
  {
    Ironic.SplitFront(a, "");
    TrimSpaceUnpadded(a);
    assert [a][..0] == [];
    assert Ironic.Trimmed([a]) == [a];
    assert Store.Usable([a]) == [a];
  }

  /** The server has started on a file with a record for `b`. */
  function Started(b: string, rec: Tracker.Record): Fleet {
    Fleet(NO_NODES, map[], Some(map[b := rec]), Tracker.Content.Holds(map[b := rec]), map[])
  }

  function Registered(a: string, u: string, b: string, rec: Tracker.Record): Fleet {
    Started(b, rec).(registry := Store.Registry(map[u := [a]], map[a := u]), systems := map[u := IDLE])
  }

  /** The node of `a` is about to be marked, and a command that loaded the file before is under way. */
  function Ready(a: string, u: string, b: string, rec: Tracker.Record): Fleet {
    Registered(a, u, b, rec).(systems := map[u := DEPLOYED], commands := map[0 := map[b := rec]])
  }

  lemma NodeRegisters(a: string, u: string, b: string, rec: Tracker.Record)
    requires Texts(a, b)
    ensures Reaches(Started(b, rec), Registered(a, u, b, rec))
  {
    ListedAlone(a);
    FirstRegistration(Listed(a), a, u);
    OneStep(Started(b, rec), Lookup(a, u), Registered(a, u, b, rec));
  }

  lemma FirstRegistration(macs: seq<string>, a: string, u: string)
    requires Store.Usable(macs) == [a]
    ensures Store.Found(NO_NODES.index, [a]).None?
    ensures Store.Register(NO_NODES, macs, u) == Store.Registry(map[u := [a]], map[a := u])
  {
    assert [a][..0] == [] && [a][1..] == [];
    assert Store.IndexAll(map[], [a], u) == map[a := u];
  }

  lemma ReadyReached(a: string, u: string, b: string, rec: Tracker.Record)
    requires Texts(a, b)
    ensures Reaches(Started(b, rec), Ready(a, u, b, rec))
  {
    var f, g := Started(b, rec), Registered(a, u, b, rec);
    NodeRegisters(a, u, b, rec);
    NodeDeploys(g, u, 10);
    var deployed := g.(systems := map[u := DEPLOYED]);
    assert g.systems[u := SYSTEMS[10]] == map[u := DEPLOYED];
    OneStep(deployed, Load(0, true), Ready(a, u, b, rec));
    ReachesOn(f, g, deployed);
    ReachesOn(f, deployed, Ready(a, u, b, rec));
  }

  /** The fleets of the losing end: mark, the command for `b` ends, crash, start. */
  ghost function Losing(a: string, u: string, b: string, rec: Tracker.Record): seq<Fleet> {
    var ready := Ready(a, u, b, rec);
    var d := Tracker.Mark(map[b := rec], [a], rec);
    var marked := ready.(systems := map[u := Sole(NAMED.(state := Done), Ended, ASKED + [Run(true)], 0)],
                         tracker := Some(d), file := Tracker.Content.Holds(d));
    var ended := marked.(commands := map[], file := Tracker.Content.Holds(map[]));
    var down := ended.(registry := NO_NODES, systems := map[], tracker := None);
    [ready, marked, ended, down, down.(tracker := Some(map[]))]
  }

  function LosingEvents(u: string, b: string, rec: Tracker.Record): seq<Event> {
    [Local(u, Move(0, AGENT), rec, true), Forget(0, b, true), Crash, Start(true)]
  }

  lemma LosingMark(a: string, u: string, b: string, rec: Tracker.Record)
    ensures var fs, es := Losing(a, u, b, rec), LosingEvents(u, b, rec);
      Step(fs[0], es[0], fs[1]) && SavedMark(fs[0], es[0])
  {
    var g := DEPLOYED;
    assert [Marking(ID)][0 := Ended] == [Ended];
    assert g.calls + [] == g.calls;
    assert map[u := DEPLOYED][u := Sole(NAMED.(state := Done), Ended, ASKED + [Run(true)], 0)]
        == map[u := Sole(NAMED.(state := Done), Ended, ASKED + [Run(true)], 0)];
  }

  lemma LosingRest(a: string, u: string, b: string, rec: Tracker.Record)
    requires Canon(b) == b
    ensures var fs, es := Losing(a, u, b, rec), LosingEvents(u, b, rec);
      Step(fs[1], es[1], fs[2]) && Step(fs[2], es[2], fs[3]) && Step(fs[3], es[3], fs[4]) && Writes(fs[1], es[1])
  {
    assert map[b := rec] - {b} == map[];
    assert map[0 as nat := map[b := rec]] - {0} == map[];
  }

  /**
   The hazard is real: for every address `a` there is a run on which the deployment of its
   node is recorded and saved, nobody forgets `a`, a command for another address `b` ends after
   that, and at the next start `a` is not recorded.
   */
  lemma RecordCanBeLost(a: string, b: string) returns (fs: seq<Fleet>, es: seq<Event>, i: nat)
    requires Texts(a, b)
    ensures Trace(fs, es) && |es| == i + 4 && SavedMark(fs[i], es[i]) && a in fs[i].registry.macs[es[i].uuid]
    ensures forall k | i < k < |es| :: !Erases(es[k], a)
    ensures StaleSave(fs, es, i, i + 1, a) && fs[i + 4].tracker.Some? && !InMemory(fs[i + 4], a)
  {
    var u, rec := "u", Tracker.Record("", 0, "");
    var first := Fleet(NO_NODES, map[], None, Tracker.Content.Holds(map[b := rec]), map[]);
    OneStep(first, Start(true), Started(b, rec));
    ReadyReached(a, u, b, rec);
    ReachesOn(first, Started(b, rec), Ready(a, u, b, rec));
    var gs, ds :| Path(gs, ds) && gs[0] == first && gs[|ds|] == Ready(a, u, b, rec);
    var hs, last := Losing(a, u, b, rec), LosingEvents(u, b, rec);
    LosingMark(a, u, b, rec);
    LosingRest(a, u, b, rec);
    FourSteps(hs, last);
    Joined(gs, ds, hs, last);
    fs, es, i := gs[..|ds|] + hs, ds + last, |ds|;
    Ends(gs, ds, hs, last, a, u, b, rec);
  }

  lemma FourSteps(hs: seq<Fleet>, last: seq<Event>)
    requires |hs| == 5 && |last| == 4 && Step(hs[0], last[0], hs[1]) && Step(hs[1], last[1], hs[2])
    requires Step(hs[2], last[2], hs[3]) && Step(hs[3], last[3], hs[4])
    ensures Path(hs, last)
  {
    forall i | 0 <= i < 4 ensures Step(hs[i], last[i], hs[i + 1]) {
      if i == 0 {} else if i == 1 {} else if i == 2 {} else {}
    }
  }

  lemma Ends(gs: seq<Fleet>, ds: seq<Event>, hs: seq<Fleet>, last: seq<Event>, a: string, u: string, b: string,
             rec: Tracker.Record)
    requires |gs| == |ds| + 1 && Texts(a, b) && hs == Losing(a, u, b, rec) && last == LosingEvents(u, b, rec)
    requires Writes(hs[1], last[1])
    ensures var fs, es, i := gs[..|ds|] + hs, ds + last, |ds|;
      && (forall k | 0 <= k < 5 :: fs[i + k] == hs[k]) && (forall k | 0 <= k < 4 :: es[i + k] == last[k])
      && (forall k | i < k < |es| :: !Erases(es[k], a)) && StaleSave(fs, es, i, i + 1, a) && !InMemory(fs[i + 4], a)
  {
    var fs, es, i := gs[..|ds|] + hs, ds + last, |ds|;
    forall k | i < k < |es| ensures !Erases(es[k], a) {
      LastErasesNot(last, a, u, b, rec, k - i);
    }
    assert fs[i] == hs[0] && fs[i + 1] == hs[1] && es[i] == last[0] && es[i + 1] == last[1];
    assert LoadedBefore(fs, es, i, i + 1, 0);
  }

  lemma LastErasesNot(last: seq<Event>, a: string, u: string, b: string, rec: Tracker.Record, k: nat)
    requires Texts(a, b) && last == LosingEvents(u, b, rec) && k < 4
    ensures !Erases(last[k], a)
  {
  }
}
