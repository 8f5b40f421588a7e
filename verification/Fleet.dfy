/**
 All nodes of a server together with the deployed-state file, through crashes, restarts and
 the maintenance commands, which are processes of their own: each loads the file when it
 starts and writes back what it loaded, less what it forgets, when it ends.
 */
module Fleet {
  import opened Wrappers
  import opened MacText
  import opened Node
  import opened Driver
  import Store
  import Ironic
  import Tracker

  /**
   The running process: its registry of nodes, the driver machine of each node, its tracker
   (none while it is down).  The state file.  The maps that unfinished commands have loaded.
   */
  datatype Fleet = Fleet(registry: Store.Registry, systems: map<string, System>, tracker: Option<Tracker.Deployed>,
                         file: Tracker.Content, commands: map<nat, Tracker.Deployed>)

  const NO_NODES := Store.Registry(map[], map[])

  datatype Event =
    | Lookup(addresses: string, uuid: string)
    | Local(uuid: string, act: Act, rec: Tracker.Record, diskOk: bool)
    | Load(id: nat, readable: bool)
    | Forget(id: nat, mac: string, diskOk: bool)
    | ForgetAll(id: nat, diskOk: bool)
    | Crash
    | Start(readable: bool)

  /** The MACs of an address list as the lookup handler passes them on. */
  function Listed(addresses: string): seq<string> {
    Ironic.Trimmed(Ironic.Split(addresses))
  }

  /** The lookup registers a new node. */
  predicate Creates(r: Store.Registry, addresses: string) {
    Store.Usable(Listed(addresses)) != [] && Store.Found(r.index, Store.Usable(Listed(addresses))).None?
  }

  /** The step of a driver that records its node as deployed. */
  predicate Marks(g: System, a: Act) {
    a.Move? && a.i < |g.drivers| && g.drivers[a.i].Marking?
  }

  function LoadedFrom(file: Tracker.Content, readable: bool): Option<Tracker.Deployed> {
    match file
    case Absent => Some(map[])
    case Garbled => None
    case Holds(d) => if readable then Some(d) else None
  }

  /** The event replaces the state file. */
  predicate Writes(f: Fleet, e: Event) {
    match e
    case Local(uuid, act, _, diskOk) => diskOk && uuid in f.systems && Marks(f.systems[uuid], act)
    case Forget(id, mac, diskOk) => diskOk && id in f.commands && Canon(mac) in f.commands[id]
    case ForgetAll(id, diskOk) => diskOk
    case _ => false
  }

  /** What the event writes: the server its memory with the new records, a command what it loaded less what it forgets. */
  function Written(f: Fleet, e: Event): Tracker.Deployed {
    match e
    case Local(uuid, _, rec, _) =>
      if f.tracker.Some? && uuid in f.registry.macs then Tracker.Mark(f.tracker.value, f.registry.macs[uuid], rec) else map[]
    case Forget(id, mac, _) => if id in f.commands then f.commands[id] - {Canon(mac)} else map[]
    case _ => map[]
  }

  function FileAfter(f: Fleet, e: Event): Tracker.Content {
    if Writes(f, e) then Tracker.Content.Holds(Written(f, e)) else f.file
  }

  ghost predicate Step(f: Fleet, e: Event, f': Fleet) {
    f'.file == FileAfter(f, e) &&
    match e
    case Lookup(addresses, uuid) =>
      && f.tracker.Some? && uuid !in f.registry.macs
      && f' == f.(registry := Store.Register(f.registry, Listed(addresses), uuid),
                  systems := if Creates(f.registry, addresses) then f.systems[uuid := IDLE] else f.systems)
    case Local(uuid, act, rec, _) =>
      && f.tracker.Some? && uuid in f.systems && uuid in f.registry.macs && uuid in f'.systems
      && Next(f.systems[uuid], act, f'.systems[uuid])
      && f' == f.(systems := f.systems[uuid := f'.systems[uuid]], file := f'.file,
                  tracker := Some(if Marks(f.systems[uuid], act) then Written(f, e) else f.tracker.value))
    case Load(id, readable) =>
      && id !in f.commands
      && var d := LoadedFrom(f.file, readable);
      f' == if d.Some? then f.(commands := f.commands[id := d.value]) else f
    case Forget(id, _, _) => id in f.commands && f' == f.(commands := f.commands - {id}, file := f'.file)
    case ForgetAll(id, _) => id in f.commands && f' == f.(commands := f.commands - {id}, file := f'.file)
    case Crash => f' == f.(registry := NO_NODES, systems := map[], tracker := None)
    case Start(readable) => f.tracker.None? && f' == f.(tracker := LoadedFrom(f.file, readable))
  }

  ghost predicate Trace(fs: seq<Fleet>, es: seq<Event>) {
    && |fs| == |es| + 1 && fs[0].registry == NO_NODES && fs[0].systems == map[] && fs[0].tracker == None
    && forall i {:trigger es[i]} | 0 <= i < |es| :: Step(fs[i], es[i], fs[i + 1])
  }

  // ---------- what holds of every fleet ----------

  /** Another pass of `canon` changes no MAC of any node. */
  ghost predicate SettledNodes(r: Store.Registry) {
    forall u, m | u in r.macs && m in r.macs[u] :: Canon(m) == m != ""
  }

  lemma {:induction false} TrimmedParts(parts: seq<string>)
    ensures forall p | p in Ironic.Trimmed(parts) :: Unpadded(p)
  {
    if parts != [] {
      TrimmedParts(parts[..|parts| - 1]);
      TrimSpaceUnpadded(parts[|parts| - 1]);
    }
  }

  lemma {:induction false} UsableSettled(macs: seq<string>)
    requires forall p | p in macs :: Unpadded(p)
    ensures forall m | m in Store.Usable(macs) :: Canon(m) == m != ""
  {
    if macs != [] {
      UsableSettled(macs[..|macs| - 1]);
      CanonIdempotentIff(macs[|macs| - 1]);
    }
  }

  lemma ListedSettled(addresses: string)
    ensures forall m | m in Store.Usable(Listed(addresses)) :: Canon(m) == m != ""
  {
    TrimmedParts(Ironic.Split(addresses));
    UsableSettled(Listed(addresses));
  }

  /** The MACs that a mark of the node records are those it is registered with. */
  lemma SettledCanonSet(r: Store.Registry, u: string)
    requires SettledNodes(r) && u in r.macs
    ensures forall m :: m in Tracker.CanonSet(r.macs[u]) <==> m in r.macs[u]
  {
  }

  /** Every node has its machine, in an order the protocol allows, and the index of MACs is exact. */
  ghost predicate Sane(f: Fleet) {
    && f.systems.Keys == f.registry.macs.Keys && Store.Indexed(f.registry) && SettledNodes(f.registry)
    && forall u | u in f.systems :: Inv(f.systems[u])
  }

  lemma StepKeepsSane(f: Fleet, e: Event, f': Fleet)
    requires Sane(f) && Step(f, e, f')
    ensures Sane(f')
  {
    match e
    case Lookup(addresses, uuid) =>
      Store.RegisterKeeps(f.registry, Listed(addresses), uuid);
      ListedSettled(addresses);
      assert Inv(IDLE);
    case Local(uuid, act, _, _) => NextKeepsInv(f.systems[uuid], act, f'.systems[uuid]);
    case _ =>
  }

  lemma {:induction false} TraceSane(fs: seq<Fleet>, es: seq<Event>, i: nat)
    requires Trace(fs, es) && i < |fs|
    ensures Sane(fs[i])
  {
    if i > 0 {
      TraceSane(fs, es, i - 1);
      assert Step(fs[i - 1], es[i - 1], fs[i]);
      StepKeepsSane(fs[i - 1], es[i - 1], fs[i]);
    }
  }

  // ---------- records come from nodes that reached done ----------

  /** The MACs recorded in memory, in the file or in a map that a command has loaded. */
  function Keys(f: Fleet): set<string> {
    (if f.tracker.Some? then f.tracker.value.Keys else {}) + (if f.file.Holds? then f.file.deployed.Keys else {})
    + set id, m | id in f.commands && m in f.commands[id] :: m
  }

  /** At some point up to `i` a node with this MAC was in state done. */
  ghost predicate ReachedDone(fs: seq<Fleet>, i: nat, mac: string) {
    exists k, u :: 0 <= k <= i && k < |fs| && HasDone(fs[k], u, mac)
  }

  ghost predicate HasDone(f: Fleet, u: string, mac: string) {
    && u in f.systems && u in f.registry.macs
    && f.systems[u].node.state == Done && mac in Tracker.CanonSet(f.registry.macs[u])
  }

  /** A driver that marks its node deployed has a node in state done, whose run command was accepted. */
  lemma MarksWhenDone(g: System, a: Act)
    requires Inv(g) && Marks(g, a)
    ensures g.node.state == Done
    ensures g.calls != [] && g.calls[|g.calls| - 1] == Run(true) && Disciplined(g.calls)
  {
  }

  /** The event is a mark of a node in state done that has this MAC. */
  ghost predicate EarnedBy(f: Fleet, e: Event, mac: string) {
    e.Local? && HasDone(f, e.uuid, mac)
  }

  /** What a mark leaves: the old records and those of the node's MACs. */
  lemma MarkedKeys(f: Fleet, e: Event)
    requires e.Local? && f.tracker.Some? && e.uuid in f.registry.macs
    ensures Written(f, e).Keys == f.tracker.value.Keys + Tracker.CanonSet(f.registry.macs[e.uuid])
  {
    Tracker.MarkRecords(f.tracker.value, f.registry.macs[e.uuid], e.rec);
  }

  lemma KeysGrow(f: Fleet, e: Event, f': Fleet)
    requires Sane(f) && Step(f, e, f')
    ensures forall mac | mac in Keys(f') :: mac in Keys(f) || EarnedBy(f, e, mac)
  {
    if e.Local? && Marks(f.systems[e.uuid], e.act) {
      MarksWhenDone(f.systems[e.uuid], e.act);
      MarkedKeys(f, e);
    }
  }

  /**
   Whatever is recorded, in memory, in the file or by a command, was so at the very start or
   belongs to a node that reached done, in this process or an earlier one.
   */
  lemma {:induction false} RecordsAreEarned(fs: seq<Fleet>, es: seq<Event>, i: nat, mac: string)
    requires Trace(fs, es) && i < |fs| && mac in Keys(fs[i])
    ensures mac in Keys(fs[0]) || ReachedDone(fs, i, mac)
    decreases i
  {
    if i > 0 {
      assert Step(fs[i - 1], es[i - 1], fs[i]);
      TraceSane(fs, es, i - 1);
      KeysGrow(fs[i - 1], es[i - 1], fs[i]);
      if mac in Keys(fs[i - 1]) {
        RecordsAreEarned(fs, es, i - 1, mac);
        if ReachedDone(fs, i - 1, mac) {
          var k, u :| 0 <= k <= i - 1 && k < |fs| && HasDone(fs[k], u, mac);
          assert 0 <= k <= i;
        }
      } else {
        assert HasDone(fs[i - 1], es[i - 1].uuid, mac);
      }
    }
  }

  // ---------- memory and file ----------

  ghost predicate InMemory(f: Fleet, mac: string) {
    f.tracker.Some? && mac in f.tracker.value
  }

  ghost predicate InFile(f: Fleet, mac: string) {
    f.file.Holds? && mac in f.file.deployed
  }

  /** The event writes a file with the record. */
  ghost predicate Puts(f: Fleet, e: Event, mac: string) {
    Writes(f, e) && mac in Written(f, e)
  }

  /** The event writes a file without the record. */
  ghost predicate Takes(f: Fleet, e: Event, mac: string) {
    Writes(f, e) && mac !in Written(f, e)
  }

  /** The server records a node that has this MAC, and the save succeeds. */
  ghost predicate SavedMark(f: Fleet, e: Event) {
    e.Local? && Writes(f, e) && f.tracker.Some? && e.uuid in f.registry.macs
  }

  lemma StepOnFile(f: Fleet, e: Event, f': Fleet, mac: string)
    requires Step(f, e, f')
    ensures InFile(f', mac) <==> Puts(f, e, mac) || (InFile(f, mac) && !Takes(f, e, mac))
    ensures f.file.Holds? ==> f'.file.Holds?
  {
  }

  /** The last event that wrote the file decides whether a MAC is recorded in it. */
  lemma {:induction false} LastWriteDecides(fs: seq<Fleet>, es: seq<Event>, i: nat, j: nat, mac: string)
    requires Trace(fs, es) && i <= j < |fs|
    ensures InFile(fs[j], mac) <==> || PutLast(fs, es, i, j, mac)
                                    || (InFile(fs[i], mac) && NeverTaken(fs, es, i, j, mac))
    decreases j
  {
    if i < j {
      assert Step(fs[j - 1], es[j - 1], fs[j]);
      StepOnFile(fs[j - 1], es[j - 1], fs[j], mac);
      NeverTakenGrows(fs, es, i, j, mac);
      PutLastGrows(fs, es, i, j, mac);
      LastWriteDecides(fs, es, i, j - 1, mac);
    }
  }

  ghost predicate NeverTaken(fs: seq<Fleet>, es: seq<Event>, i: nat, j: nat, mac: string)
    requires j <= |es| && j <= |fs|
  {
    forall n | i <= n < j :: !Takes(fs[n], es[n], mac)
  }

  /** Between the two points the record was written, and not taken out after that. */
  ghost predicate PutLast(fs: seq<Fleet>, es: seq<Event>, i: nat, j: nat, mac: string)
    requires j <= |es| && j <= |fs|
  {
    exists k: nat :: i <= k < j && Puts(fs[k], es[k], mac) && NeverTaken(fs, es, k + 1, j, mac)
  }

  lemma PutNow(fs: seq<Fleet>, es: seq<Event>, i: nat, j: nat, mac: string)
    requires i < j <= |es| && j <= |fs| && Puts(fs[j - 1], es[j - 1], mac)
    ensures PutLast(fs, es, i, j, mac)
  {
    assert NeverTaken(fs, es, j, j, mac);
  }

  lemma PutStays(fs: seq<Fleet>, es: seq<Event>, i: nat, j: nat, mac: string)
    requires i < j <= |es| && j <= |fs| && PutLast(fs, es, i, j - 1, mac) && !Takes(fs[j - 1], es[j - 1], mac)
    ensures PutLast(fs, es, i, j, mac)
  {
    var k: nat :| i <= k < j - 1 && Puts(fs[k], es[k], mac) && NeverTaken(fs, es, k + 1, j - 1, mac);
    assert NeverTaken(fs, es, k + 1, j, mac);
  }

  lemma PutBefore(fs: seq<Fleet>, es: seq<Event>, i: nat, j: nat, mac: string)
    requires i < j <= |es| && j <= |fs| && PutLast(fs, es, i, j, mac) && !Puts(fs[j - 1], es[j - 1], mac)
    ensures PutLast(fs, es, i, j - 1, mac) && !Takes(fs[j - 1], es[j - 1], mac)
  {
    var k: nat :| i <= k < j && Puts(fs[k], es[k], mac) && NeverTaken(fs, es, k + 1, j, mac);
    if k < j - 1 { NeverTakenGrows(fs, es, k + 1, j, mac); }
  }

  lemma NeverTakenGrows(fs: seq<Fleet>, es: seq<Event>, i: nat, j: nat, mac: string)
    requires i < j <= |es| && j <= |fs|
    ensures NeverTaken(fs, es, i, j, mac) <==> NeverTaken(fs, es, i, j - 1, mac) && !Takes(fs[j - 1], es[j - 1], mac)
  {
  }

  lemma PutLastGrows(fs: seq<Fleet>, es: seq<Event>, i: nat, j: nat, mac: string)
    requires i < j <= |es| && j <= |fs|
    ensures PutLast(fs, es, i, j, mac) <==> || Puts(fs[j - 1], es[j - 1], mac)
                                            || (PutLast(fs, es, i, j - 1, mac) && !Takes(fs[j - 1], es[j - 1], mac))
  {
    if Puts(fs[j - 1], es[j - 1], mac) {
      PutNow(fs, es, i, j, mac);
    } else if PutLast(fs, es, i, j, mac) {
      PutBefore(fs, es, i, j, mac);
    } else if PutLast(fs, es, i, j - 1, mac) && !Takes(fs[j - 1], es[j - 1], mac) {
      PutStays(fs, es, i, j, mac);
    }
  }

  /** While the process lives its memory only gains records. */
  lemma StepOnMemory(f: Fleet, e: Event, f': Fleet, mac: string)
    requires Step(f, e, f') && InMemory(f, mac)
    ensures f'.tracker.Some? ==> InMemory(f', mac)
    ensures f'.tracker.None? <==> e.Crash?
    ensures SavedMark(f, e) ==> Puts(f, e, mac)
  {
    if e.Local? {
      MarkedKeys(f, e);
    }
  }
}
