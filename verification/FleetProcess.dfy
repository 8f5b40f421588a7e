/**
 The objects take the steps of Fleet: a lookup, a heartbeat and a mark on the registry, the
 nodes and the tracker of the server, its start, and the commands with trackers of their own.
 */
module FleetProcess {
  import opened Wrappers
  import opened Driver
  import opened Fleet
  import Node
  import Store
  import Ironic
  import Tracker

  /** The running server's objects are in this state. */
  ghost predicate Shows(f: Fleet, store: Store.Store, tracker: Tracker.Tracker)
    reads store, set u | u in store.nodes :: store.nodes[u]
    reads tracker, tracker.disk
  {
    && store.Valid() && f.registry == store.Value() && f.systems.Keys == store.nodes.Keys
    && (forall u | u in store.nodes :: f.systems[u].node == store.nodes[u].Value())
    && f.tracker == Some(tracker.deployed) && f.file == tracker.disk.content
  }

  /** `handleLookup` behind its request parsing. */
  method LookUp(store: Store.Store, tracker: Tracker.Tracker, addresses: string, hostnames: map<string, string>,
                uuid: string, agentToken: string, ghost f: Fleet)
    returns (n: Node.Node?, ghost f': Fleet)
    requires Shows(f, store, tracker) && uuid !in store.nodes
    modifies store
    ensures Step(f, Lookup(addresses, uuid), f') && Shows(f', store, tracker)
    ensures Store.Returned(f.registry, Listed(addresses), uuid) == if n == null then None else Some(n.uuid)
  {
    var macs := Ironic.SplitMACs(addresses);
    var created;
    n, created := store.GetOrCreate(macs, hostnames, uuid, agentToken);
    f' := f.(registry := store.Value(), systems := if created then f.systems[uuid := IDLE] else f.systems);
    assert store.nodes.Keys == store.Value().macs.Keys;
    forall u | u in store.nodes ensures f'.systems[u].node == store.nodes[u].Value() {
      if u in old(store.nodes) {
        assert f.systems[u].node == old(store.nodes[u].Value());
      }
    }
    LookupStep(f, addresses, uuid, created, store.Value(), f');
  }

  lemma LookupStep(f: Fleet, addresses: string, uuid: string, created: bool, r: Store.Registry, f': Fleet)
    requires f.tracker.Some? && uuid !in f.registry.macs && f.systems.Keys == f.registry.macs.Keys
    requires created <==> Creates(f.registry, addresses)
    requires r == Store.Register(f.registry, Listed(addresses), uuid)
    requires f' == f.(registry := r, systems := if created then f.systems[uuid := IDLE] else f.systems)
    ensures Step(f, Lookup(addresses, uuid), f') && f'.systems.Keys == r.macs.Keys
  {
  }

  /** `handleHeartbeat` behind its request parsing, for a node that is stored. */
  method HeartBeat(store: Store.Store, tracker: Tracker.Tracker, uuid: string, callbackURL: string, ghost f: Fleet,
                   ghost rec: Tracker.Record, ghost diskOk: bool, now: int)
    returns (startDriver: bool, ghost f': Fleet)
    requires Shows(f, store, tracker) && uuid in store.nodes && f.systems[uuid].clock == now
    modifies store.nodes[uuid]
    ensures Step(f, Local(uuid, Beat(callbackURL), rec, diskOk), f') && Shows(f', store, tracker)
    ensures startDriver <==> f'.systems[uuid].pending == f.systems[uuid].pending + 1
  {
    var n := store.nodes[uuid];
    startDriver := n.RecordHeartbeat(callbackURL, now);
    f' := BeatStep(f, uuid, callbackURL, rec, diskOk, n.Value(), startDriver);
    assert store.Value() == old(store.Value());
  }

  lemma BeatStep(f: Fleet, uuid: string, callbackURL: string, rec: Tracker.Record, diskOk: bool, n: Node.Guarded, starts: bool)
    returns (f': Fleet)
    requires f.tracker.Some? && uuid in f.systems && uuid in f.registry.macs
    requires (n, starts) == Node.Heartbeat(f.systems[uuid].node, callbackURL, f.systems[uuid].clock)
    ensures Step(f, Local(uuid, Beat(callbackURL), rec, diskOk), f')
    ensures f' == f.(systems := f.systems[uuid := f'.systems[uuid]]) && uuid in f'.systems && f'.systems[uuid].node == n
    ensures f'.systems[uuid].pending == f.systems[uuid].pending + if starts then 1 else 0
  {
    var g := f.systems[uuid];
    f' := f.(systems := f.systems[uuid := g.(node := n, pending := if starts then g.pending + 1 else g.pending)]);
  }

  /** The end of `driveDeploy`: the driver marks its node. */
  method MarkNode(store: Store.Store, tracker: Tracker.Tracker, uuid: string, i: nat, imageHash: string, now: int, diskOk: bool,
                  ghost f: Fleet, ghost agent: Agent)
    returns (ghost f': Fleet)
    requires Shows(f, store, tracker) && uuid in store.nodes
    requires i < |f.systems[uuid].drivers| && f.systems[uuid].drivers[i].Marking?
    modifies tracker, tracker.disk
    ensures Step(f, Local(uuid, Move(i, agent), Tracker.Record(uuid, now, imageHash), diskOk), f') && Shows(f', store, tracker)
  {
    var n := store.nodes[uuid];
    var err := tracker.MarkDeployed(n.macs, n.uuid, imageHash, now, diskOk);
    assert f.registry.macs[uuid] == n.macs;
    f' := MarkStep(f, uuid, i, agent, Tracker.Record(uuid, now, imageHash), diskOk);
    assert store.Value() == old(store.Value());
  }

  lemma MarkStep(f: Fleet, uuid: string, i: nat, agent: Agent, rec: Tracker.Record, diskOk: bool) returns (f': Fleet)
    requires f.tracker.Some? && uuid in f.systems && uuid in f.registry.macs
    requires i < |f.systems[uuid].drivers| && f.systems[uuid].drivers[i].Marking?
    ensures Step(f, Local(uuid, Move(i, agent), rec, diskOk), f')
    ensures uuid in f'.systems && f'.systems[uuid].node == f.systems[uuid].node
    ensures var d := Tracker.Mark(f.tracker.value, f.registry.macs[uuid], rec);
      f' == f.(systems := f.systems[uuid := f'.systems[uuid]], tracker := Some(d),
               file := if diskOk then Tracker.Content.Holds(d) else f.file)
  {
    var g, e := f.systems[uuid], Local(uuid, Move(i, agent), rec, diskOk);
    assert g.calls + [] == g.calls;
    f' := f.(systems := f.systems[uuid := g.(drivers := g.drivers[i := Ended])],
             tracker := Some(Written(f, e)), file := FileAfter(f, e));
  }

  /** The server starts on whatever the last process left. */
  method StartServer(disk: Tracker.Disk, readable: bool, ghost f: Fleet)
    returns (store: Store.Store, tracker: Tracker.Tracker?, ghost f': Fleet)
    requires f.registry == NO_NODES && f.systems == map[] && f.tracker == None && f.file == disk.content
    ensures Step(f, Start(readable), f')
    ensures if tracker == null then f' == f else tracker.disk == disk && Shows(f', store, tracker)
  {
    store := new Store.Store();
    var t := new Tracker.Tracker(disk);
    var err := t.Load(readable);
    tracker := if err.None? then t else null;
    f' := f.(tracker := LoadedFrom(f.file, readable));
    assert store.nodes.Keys == {} by {
      assert store.Value().macs.Keys == store.nodes.Keys;
    }
  }

  /** A maintenance command starts: `state.New` in a process of its own. */
  method LoadCommand(disk: Tracker.Disk, readable: bool, ghost id: nat, ghost f: Fleet)
    returns (t: Tracker.Tracker?, ghost f': Fleet)
    requires f.file == disk.content && id !in f.commands
    ensures Step(f, Load(id, readable), f') && f'.file == disk.content
    ensures t != null ==> fresh(t) && t.disk == disk && id in f'.commands && f'.commands[id] == t.deployed
    ensures t == null ==> f' == f
  {
    var command := new Tracker.Tracker(disk);
    var err := command.Load(readable);
    t := if err.None? then command else null;
    f' := if err.None? then f.(commands := f.commands[id := command.deployed]) else f;
  }

  /** And ends: it forgets a MAC, and saves what it had loaded. */
  method ForgetCommand(t: Tracker.Tracker, mac: string, diskOk: bool, ghost id: nat, ghost f: Fleet) returns (ghost f': Fleet)
    requires f.file == t.disk.content && id in f.commands && f.commands[id] == t.deployed
    modifies t, t.disk
    ensures Step(f, Forget(id, mac, diskOk), f') && f'.file == t.disk.content
  {
    var present, err := t.Forget(mac, diskOk);
    f' := f.(commands := f.commands - {id}, file := t.disk.content);
  }

  method ForgetAllCommand(t: Tracker.Tracker, diskOk: bool, ghost id: nat, ghost f: Fleet) returns (ghost f': Fleet)
    requires f.file == t.disk.content && id in f.commands
    modifies t, t.disk
    ensures Step(f, ForgetAll(id, diskOk), f') && f'.file == t.disk.content
  {
    var err := t.ForgetAll(diskOk);
    f' := f.(commands := f.commands - {id}, file := t.disk.content);
  }
}
