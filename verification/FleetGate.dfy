/**
 The deployed gate, end to end: from an agent's lookup to the DHCP reply, how long a record
 holds, what makes it come back, and what loses it.
 */
module FleetGate {
  import opened Wrappers
  import opened MacText
  import opened Fleet
  import Store
  import Ironic
  import DhcpServer
  import LeaseModel

  // ---------- how long a record holds ----------

  /** The MAC is recorded in memory, if the server is up, and in the file. */
  ghost predicate Recorded(f: Fleet, mac: string) {
    (f.tracker.Some? ==> InMemory(f, mac)) && InFile(f, mac)
  }

  /** A maintenance command that forgets the MAC, and is saved. */
  predicate Erases(e: Event, mac: string) {
    (e.Forget? && e.diskOk && Canon(e.mac) == mac) || (e.ForgetAll? && e.diskOk)
  }

  predicate Finishes(e: Event, id: nat) {
    (e.Forget? || e.ForgetAll?) && e.id == id
  }

  /** The command was under way when event `i` came, and is still when event `k` comes. */
  ghost predicate LoadedBefore(fs: seq<Fleet>, es: seq<Event>, i: nat, k: nat, id: nat)
    requires i < |fs| && k <= |es|
  {
    id in fs[i].commands && forall n | i <= n < k :: !Finishes(es[n], id)
  }

  /** A command that loaded its map before event `i`, without the MAC, writes it back at event `k`. */
  ghost predicate StaleSave(fs: seq<Fleet>, es: seq<Event>, i: nat, k: nat, mac: string)
    requires i < |fs| && k < |es| && k < |fs|
  {
    es[k].Forget? && Writes(fs[k], es[k]) && mac !in fs[k].commands[es[k].id] && LoadedBefore(fs, es, i, k, es[k].id)
  }

  /** Every command under way knows the MAC or was so already at event `i`. */
  ghost predicate CommandsKnow(fs: seq<Fleet>, es: seq<Event>, i: nat, n: nat, mac: string)
    requires i < |fs| && n < |fs| && n <= |es|
  {
    forall id | id in fs[n].commands :: mac in fs[n].commands[id] || LoadedBefore(fs, es, i, n, id)
  }

  lemma StepKeepsRecorded(f: Fleet, e: Event, f': Fleet, mac: string)
    requires Step(f, e, f') && Recorded(f, mac) && !Takes(f, e, mac)
    ensures Recorded(f', mac)
  {
    StepOnFile(f, e, f', mac);
    if f.tracker.Some? { StepOnMemory(f, e, f', mac); }
  }

  /** A write that takes out the record of a MAC that is in memory is the end of a command. */
  lemma TakesIsCommand(f: Fleet, e: Event, f': Fleet, mac: string)
    requires Step(f, e, f') && Recorded(f, mac) && Takes(f, e, mac) && !Erases(e, mac)
    ensures e.Forget? && mac !in f.commands[e.id]
  {
    if e.Local? { MarkedKeys(f, e); }
  }

  lemma StepKeepsCommands(fs: seq<Fleet>, es: seq<Event>, i: nat, n: nat, mac: string)
    requires Trace(fs, es) && i <= n < |es| && Recorded(fs[n], mac) && CommandsKnow(fs, es, i, n, mac)
    ensures CommandsKnow(fs, es, i, n + 1, mac)
  {
    var f, e, f' := fs[n], es[n], fs[n + 1];
    assert Step(f, e, f');
    forall id | id in f'.commands ensures mac in f'.commands[id] || LoadedBefore(fs, es, i, n + 1, id) {
      if id in f.commands {
        assert !Finishes(e, id) && f'.commands[id] == f.commands[id];
      }
    }
  }

  lemma MarkRecords(f: Fleet, e: Event, f': Fleet, mac: string)
    requires SettledNodes(f.registry) && Step(f, e, f') && SavedMark(f, e) && mac in f.registry.macs[e.uuid]
    ensures Recorded(f', mac) && f'.commands == f.commands
  {
    MarkedKeys(f, e);
    SettledCanonSet(f.registry, e.uuid);
  }

  /** While no stale map lands the record holds, and every command that starts learns of it. */
  lemma {:induction false} RecordedThrough(fs: seq<Fleet>, es: seq<Event>, i: nat, j: nat, mac: string)
    requires Trace(fs, es) && i < j < |fs|
    requires SavedMark(fs[i], es[i]) && mac in fs[i].registry.macs[es[i].uuid]
    requires forall k | i < k < j :: !Erases(es[k], mac) && !StaleSave(fs, es, i, k, mac)
    ensures Recorded(fs[j], mac) && CommandsKnow(fs, es, i, j, mac)
    decreases j
  {
    if j == i + 1 {
      MarkHolds(fs, es, i, mac);
    } else {
      RecordedThrough(fs, es, i, j - 1, mac);
      HoldsOneMore(fs, es, i, j - 1, mac);
    }
  }

  lemma MarkHolds(fs: seq<Fleet>, es: seq<Event>, i: nat, mac: string)
    requires Trace(fs, es) && i < |es| && SavedMark(fs[i], es[i]) && mac in fs[i].registry.macs[es[i].uuid]
    ensures Recorded(fs[i + 1], mac) && CommandsKnow(fs, es, i, i + 1, mac)
  {
    assert Step(fs[i], es[i], fs[i + 1]);
    TraceSane(fs, es, i);
    MarkRecords(fs[i], es[i], fs[i + 1], mac);
    SameCommands(fs, es, i, mac);
  }

  lemma SameCommands(fs: seq<Fleet>, es: seq<Event>, i: nat, mac: string)
    requires |fs| == |es| + 1 && i < |es| && fs[i + 1].commands == fs[i].commands && es[i].Local?
    ensures CommandsKnow(fs, es, i, i + 1, mac)
  {
  }

  lemma HoldsOneMore(fs: seq<Fleet>, es: seq<Event>, i: nat, n: nat, mac: string)
    requires Trace(fs, es) && i < n < |es| && Recorded(fs[n], mac) && CommandsKnow(fs, es, i, n, mac)
    requires !Erases(es[n], mac) && !StaleSave(fs, es, i, n, mac)
    ensures Recorded(fs[n + 1], mac) && CommandsKnow(fs, es, i, n + 1, mac)
  {
    assert Step(fs[n], es[n], fs[n + 1]);
    if Takes(fs[n], es[n], mac) {
      TakesIsCommand(fs[n], es[n], fs[n + 1], mac);
    }
    StepKeepsRecorded(fs[n], es[n], fs[n + 1], mac);
    StepKeepsCommands(fs, es, i, n, mac);
  }

  /**
   How long the record of a saved mark holds: as long as nobody forgets it, exactly until a
   command that had loaded the file before the mark, without the MAC, writes its map back.
   */
  lemma RecordHoldsIff(fs: seq<Fleet>, es: seq<Event>, i: nat, j: nat, mac: string)
    requires Trace(fs, es) && i < j < |fs|
    requires SavedMark(fs[i], es[i]) && mac in fs[i].registry.macs[es[i].uuid]
    requires forall k | i < k < j :: !Erases(es[k], mac)
    ensures (forall n | i < n <= j :: Recorded(fs[n], mac)) <==> (forall k | i < k < j :: !StaleSave(fs, es, i, k, mac))
  {
    if forall k | i < k < j :: !StaleSave(fs, es, i, k, mac) {
      forall n | i < n <= j ensures Recorded(fs[n], mac) {
        RecordedThrough(fs, es, i, n, mac);
      }
    } else {
      var k :| i < k < j && StaleSave(fs, es, i, k, mac);
      assert Step(fs[k], es[k], fs[k + 1]);
      StepOnFile(fs[k], es[k], fs[k + 1], mac);
      assert !Recorded(fs[k + 1], mac);
    }
  }

  /**
   The gate, end to end: once the deployment of a node is recorded and saved, every reply
   that the DHCP handler may give (`Gated`) to a request from one of its hardware addresses
   is the plain lease, across restarts, while the record holds.
   */
  lemma DeployedGate(fs: seq<Fleet>, es: seq<Event>, i: nat, j: nat, c: DhcpServer.Settings, p: DhcpServer.Packet,
                     l: LeaseModel.Lease, r: DhcpServer.Reply)
    requires Trace(fs, es) && i < j < |fs| && SavedMark(fs[i], es[i])
    requires HwString(p.hw) in fs[i].registry.macs[es[i].uuid]
    requires forall k | i < k < j :: !Erases(es[k], HwString(p.hw)) && !StaleSave(fs, es, i, k, HwString(p.hw))
    requires fs[j].tracker.Some? && DhcpServer.Gated(c, p, l, Canon(HwString(p.hw)) in fs[j].tracker.value, r)
    ensures r == DhcpServer.PlainReply(c, p, l) && !DhcpServer.Boots(r) && !DhcpServer.MarkedPXE(r)
  {
    CanonOfHwString(p.hw);
    RecordedThrough(fs, es, i, j, HwString(p.hw));
    DhcpServer.GatedDeployed(c, p, l, r);
  }

  // ---------- what a forget achieves ----------

  /** The same process runs on until it crashes. */
  lemma {:induction false} MemoryLasts(fs: seq<Fleet>, es: seq<Event>, i: nat, n: nat, mac: string)
    requires Trace(fs, es) && i <= n < |fs| && InMemory(fs[i], mac)
    requires forall k | i <= k < n :: !es[k].Start?
    ensures fs[n].tracker.Some? ==> InMemory(fs[n], mac)
    decreases n
  {
    if i < n {
      MemoryLasts(fs, es, i, n - 1, mac);
      assert Step(fs[n - 1], es[n - 1], fs[n]);
      if fs[n - 1].tracker.Some? {
        StepOnMemory(fs[n - 1], es[n - 1], fs[n], mac);
      }
    }
  }

  lemma {:induction false} FileStays(fs: seq<Fleet>, es: seq<Event>, i: nat, n: nat)
    requires Trace(fs, es) && i <= n < |fs| && fs[i].file.Holds?
    ensures fs[n].file.Holds?
    decreases n
  {
    if i < n {
      FileStays(fs, es, i, n - 1);
      assert Step(fs[n - 1], es[n - 1], fs[n]);
    }
  }

  /**
   When a forget takes effect: the server that runs meanwhile keeps the record in memory, so
   at its next start the record is back exactly when after the forget it was written again
   and not taken out after that.
   */
  lemma ForgottenIff(fs: seq<Fleet>, es: seq<Event>, i: nat, j: nat, mac: string)
    requires Trace(fs, es) && i < j < |es| && InMemory(fs[i], mac)
    requires Takes(fs[i], es[i], mac) && es[j] == Start(true) && forall k | i < k < j :: !es[k].Start?
    ensures fs[j + 1].tracker.Some?
    ensures InMemory(fs[j + 1], mac) <==> PutLast(fs, es, i + 1, j, mac)
    ensures forall k | i < k < j && SavedMark(fs[k], es[k]) :: Puts(fs[k], es[k], mac)
  {
    TakenThenStarted(fs, es, i, j, mac);
    forall k | i < k < j && SavedMark(fs[k], es[k]) ensures Puts(fs[k], es[k], mac) {
      MarkPuts(fs, es, i, k, mac);
    }
  }

  lemma StartReads(fs: seq<Fleet>, es: seq<Event>, j: nat, mac: string)
    requires Trace(fs, es) && j < |es| && es[j] == Start(true) && fs[j].file.Holds?
    ensures fs[j + 1].tracker.Some? && (InMemory(fs[j + 1], mac) <==> InFile(fs[j], mac))
  {
    assert Step(fs[j], es[j], fs[j + 1]);
  }

  lemma MarkPuts(fs: seq<Fleet>, es: seq<Event>, i: nat, k: nat, mac: string)
    requires Trace(fs, es) && i < k < |es| && InMemory(fs[i], mac) && SavedMark(fs[k], es[k])
    requires forall n | i <= n < k :: !es[n].Start?
    ensures Puts(fs[k], es[k], mac)
  {
    assert Step(fs[k], es[k], fs[k + 1]);
    MemoryLasts(fs, es, i, k, mac);
    StepOnMemory(fs[k], es[k], fs[k + 1], mac);
  }

  /**
   With no other command in between: the forgotten record is back at the next start exactly
   when the running server saved the mark of any node in between, because every mark writes
   the server's whole memory.
   */
  lemma ForgottenUntilNextMark(fs: seq<Fleet>, es: seq<Event>, i: nat, j: nat, mac: string)
    requires Trace(fs, es) && i < j < |es| && InMemory(fs[i], mac)
    requires Takes(fs[i], es[i], mac) && es[j] == Start(true) && forall k | i < k < j :: !es[k].Start?
    requires forall k | i < k < j && (es[k].Forget? || es[k].ForgetAll?) :: !Writes(fs[k], es[k])
    ensures fs[j + 1].tracker.Some?
    ensures InMemory(fs[j + 1], mac) <==> exists k :: i < k < j && SavedMark(fs[k], es[k])
  {
    ForgottenIff(fs, es, i, j, mac);
    forall k | i < k < j && Writes(fs[k], es[k]) ensures SavedMark(fs[k], es[k]) {
      assert Step(fs[k], es[k], fs[k + 1]);
    }
    if k :| i < k < j && SavedMark(fs[k], es[k]) {
      assert NeverTaken(fs, es, k + 1, j, mac);
      assert PutLast(fs, es, i + 1, j, mac);
    }
  }

  // ---------- what a stale map does ----------

  /**
   The gate opens when a stale map lands: at a later start the record is back only if it was
   written again meanwhile, and a request from the address is offered a boot file, wherever
   there is one, exactly when it is not.
   */
  lemma StaleSaveOpens(fs: seq<Fleet>, es: seq<Event>, i: nat, k: nat, j: nat, c: DhcpServer.Settings, p: DhcpServer.Packet,
                       l: LeaseModel.Lease, r: DhcpServer.Reply)
    requires Trace(fs, es) && i < k < j < |es| && StaleSave(fs, es, i, k, HwString(p.hw)) && es[j] == Start(true)
    ensures fs[j + 1].tracker.Some? && (InMemory(fs[j + 1], HwString(p.hw)) <==> PutLast(fs, es, k + 1, j, HwString(p.hw)))
    ensures DhcpServer.Gated(c, p, l, Canon(HwString(p.hw)) in fs[j + 1].tracker.value, r) ==>
            (DhcpServer.Boots(r) <==> && DhcpServer.SelectBoot(c, p.arch, p.isIPXE, HwString(p.hw)).Some?
                                      && !PutLast(fs, es, k + 1, j, HwString(p.hw)))
  {
    TakenThenStarted(fs, es, k, j, HwString(p.hw));
    if DhcpServer.Gated(c, p, l, Canon(HwString(p.hw)) in fs[j + 1].tracker.value, r) { StartOpens(fs[j + 1], c, p, l, r); }
  }

  /** A start after a write without the record finds it exactly if it was written again and not taken out after that. */
  lemma TakenThenStarted(fs: seq<Fleet>, es: seq<Event>, i: nat, j: nat, mac: string)
    requires Trace(fs, es) && i < j < |es| && Takes(fs[i], es[i], mac) && es[j] == Start(true)
    ensures fs[j + 1].tracker.Some? && (InMemory(fs[j + 1], mac) <==> PutLast(fs, es, i + 1, j, mac))
  {
    assert Step(fs[i], es[i], fs[i + 1]);
    StepOnFile(fs[i], es[i], fs[i + 1], mac);
    FileStays(fs, es, i + 1, j);
    StartReads(fs, es, j, mac);
    LastWriteDecides(fs, es, i + 1, j, mac);
  }

  lemma StartOpens(f: Fleet, c: DhcpServer.Settings, p: DhcpServer.Packet, l: LeaseModel.Lease, r: DhcpServer.Reply)
    requires f.tracker.Some? && DhcpServer.Gated(c, p, l, Canon(HwString(p.hw)) in f.tracker.value, r)
    ensures DhcpServer.Boots(r) <==>
            DhcpServer.SelectBoot(c, p.arch, p.isIPXE, HwString(p.hw)).Some? && !InMemory(f, HwString(p.hw))
  {
    CanonOfHwString(p.hw);
  }

  // ---------- from lookup to gate ----------

  /** A node keeps its MACs while the process lives. */
  lemma {:induction false} MacsStay(fs: seq<Fleet>, es: seq<Event>, k: nat, i: nat, uuid: string)
    requires Trace(fs, es) && k <= i < |fs| && uuid in fs[k].registry.macs
    requires forall n | k <= n < i :: !es[n].Crash?
    ensures uuid in fs[i].registry.macs && fs[i].registry.macs[uuid] == fs[k].registry.macs[uuid]
    decreases i
  {
    if k < i {
      MacsStay(fs, es, k, i - 1, uuid);
      assert Step(fs[i - 1], es[i - 1], fs[i]);
      TraceSane(fs, es, i - 1);
      if es[i - 1].Lookup? {
        Store.RegisterKeeps(fs[i - 1].registry, Listed(es[i - 1].addresses), es[i - 1].uuid);
      }
    }
  }

  /** The lookup at event `k` is answered with node `u`, whose driver marks it at event `i` of the same process. */
  ghost predicate LookedUpThenMarks(fs: seq<Fleet>, es: seq<Event>, k: nat, i: nat, u: string) {
    && Trace(fs, es) && k < i < |es| && es[k].Lookup?
    && Store.Returned(fs[k].registry, Listed(es[k].addresses), es[k].uuid) == Some(u)
    && (forall n | k < n < i :: !es[n].Crash?)
    && es[i].Local? && es[i].uuid == u && u in fs[i].systems && Marks(fs[i].systems[u], es[i].act)
  }

  /** The lookup led to the node by this MAC, or created it: the MAC belongs to the node from then on. */
  ghost predicate Belongs(f: Fleet, e: Event, u: string, mac: string)
    requires e.Lookup?
  {
    Creates(f.registry, e.addresses) || Store.Found(f.registry.index, [mac]) == Some(u)
  }

  lemma BelongsIff(fs: seq<Fleet>, es: seq<Event>, k: nat, i: nat, u: string, mac: string)
    requires LookedUpThenMarks(fs, es, k, i, u) && mac in Store.Usable(Listed(es[k].addresses))
    ensures u in fs[i].registry.macs && (mac in fs[i].registry.macs[u] <==> Belongs(fs[k], es[k], u, mac))
  {
    AfterLookup(fs, es, k, u, mac);
    StillItsMacs(fs, es, k, i, u);
  }

  lemma StillItsMacs(fs: seq<Fleet>, es: seq<Event>, k: nat, i: nat, u: string)
    requires Trace(fs, es) && k < i < |es| && u in fs[k + 1].registry.macs && forall n | k < n < i :: !es[n].Crash?
    ensures u in fs[i].registry.macs && fs[i].registry.macs[u] == fs[k + 1].registry.macs[u]
  {
    MacsStay(fs, es, k + 1, i, u);
  }

  lemma AfterLookup(fs: seq<Fleet>, es: seq<Event>, k: nat, u: string, mac: string)
    requires Trace(fs, es) && k < |es| && es[k].Lookup? && mac in Store.Usable(Listed(es[k].addresses))
    requires Store.Returned(fs[k].registry, Listed(es[k].addresses), es[k].uuid) == Some(u)
    ensures var r := fs[k + 1].registry; u in r.macs && (mac in r.macs[u] <==> Belongs(fs[k], es[k], u, mac))
  {
    assert Step(fs[k], es[k], fs[k + 1]);
    TraceSane(fs, es, k);
    Store.ReturnedHas(fs[k].registry, Listed(es[k].addresses), es[k].uuid, mac);
  }

  /**
   Which listed addresses a deployment records: after a lookup, the mark of the node it
   returned records a listed MAC, new in memory, exactly if the lookup created the node or the
   MAC already led to it.  A MAC that an agent lists later, for a node already known, is left
   out, and the gate does not close for it.
   */
  lemma ListedRecordedIff(fs: seq<Fleet>, es: seq<Event>, k: nat, i: nat, u: string, mac: string)
    requires LookedUpThenMarks(fs, es, k, i, u) && mac in Store.Usable(Listed(es[k].addresses))
    ensures InMemory(fs[i + 1], mac) <==> InMemory(fs[i], mac) || Belongs(fs[k], es[k], u, mac)
  {
    assert Step(fs[i], es[i], fs[i + 1]);
    BelongsIff(fs, es, k, i, u, mac);
    TraceSane(fs, es, i);
    MarkedKeys(fs[i], es[i]);
    SettledCanonSet(fs[i].registry, u);
  }

  /**
   From lookup to gate: an agent lists addresses and is answered with a node, new or known.
   Once the node's deployment is recorded and saved, a request from a listed hardware address
   that belongs to the node gets the plain lease, across restarts, while the record holds.
   */
  lemma LookupToGate(fs: seq<Fleet>, es: seq<Event>, k: nat, i: nat, j: nat, u: string, parts: seq<string>, part: string,
                     c: DhcpServer.Settings, p: DhcpServer.Packet, l: LeaseModel.Lease, r: DhcpServer.Reply)
    requires LookedUpThenMarks(fs, es, k, i, u) && es[i].diskOk && i < j < |fs|
    requires parts != [] && (forall n | 0 <= n < |parts| :: ',' !in parts[n]) && part in parts
    requires es[k].addresses == Ironic.Join(parts) && SpellingOf(TrimSpace(part), p.hw)
    requires Belongs(fs[k], es[k], u, HwString(p.hw))
    requires forall n | i < n < j :: !Erases(es[n], HwString(p.hw)) && !StaleSave(fs, es, i, n, HwString(p.hw))
    requires fs[j].tracker.Some? && DhcpServer.Gated(c, p, l, Canon(HwString(p.hw)) in fs[j].tracker.value, r)
    ensures r == DhcpServer.PlainReply(c, p, l) && !DhcpServer.Boots(r) && !DhcpServer.MarkedPXE(r)
  {
    Ironic.ListedHardware(parts, part, p.hw);
    BelongsIff(fs, es, k, i, u, HwString(p.hw));
    assert Step(fs[i], es[i], fs[i + 1]);
    DeployedGate(fs, es, i, j, c, p, l, r);
  }

  /** A listed address that does not belong to the node is offered a boot file after the deployment wherever there is one. */
  lemma LateMacStaysOpen(fs: seq<Fleet>, es: seq<Event>, k: nat, i: nat, u: string, c: DhcpServer.Settings,
                         p: DhcpServer.Packet, l: LeaseModel.Lease, r: DhcpServer.Reply)
    requires LookedUpThenMarks(fs, es, k, i, u) && HwString(p.hw) in Store.Usable(Listed(es[k].addresses))
    requires !InMemory(fs[i], HwString(p.hw)) && !Belongs(fs[k], es[k], u, HwString(p.hw))
    requires fs[i + 1].tracker.Some? && DhcpServer.Gated(c, p, l, Canon(HwString(p.hw)) in fs[i + 1].tracker.value, r)
    ensures DhcpServer.Boots(r) <==> DhcpServer.SelectBoot(c, p.arch, p.isIPXE, HwString(p.hw)).Some?
  {
    ListedRecordedIff(fs, es, k, i, u, HwString(p.hw));
    CanonOfHwString(p.hw);
  }
}
