/** What clearing the lease file achieves beside a running server. */
module LeaseClearing {
  import opened MacText
  import opened LeaseModel
  import opened LeaseInvariants
  import opened LeaseRuns

  /** The event ends the grant in the memory of the server. */
  predicate Ends(e: Event, g: Grant) {
    Voids(e, g) && !e.ClearFile?
  }

  ghost predicate NotCleared(es: seq<Event>, i: nat, n: nat)
    requires n <= |es|
  {
    forall k | i <= k < n :: es[k] != ClearFile(true)
  }

  /** Between the two points the server wrote its memory, and the file was not cleared after that. */
  ghost predicate SavedLast(s: Site, ws: seq<World>, es: seq<Event>, i: nat, n: nat)
    requires s.Ok() && n <= |es| && n <= |ws|
  {
    exists k: nat :: i <= k < n && SavesMemory(s, ws[k], es[k]) && NotCleared(es, k + 1, n)
  }

  lemma SavedLastGrows(s: Site, ws: seq<World>, es: seq<Event>, i: nat, n: nat)
    requires s.Ok() && i < n <= |es| && n <= |ws|
    ensures SavedLast(s, ws, es, i, n) <==>
            SavesMemory(s, ws[n - 1], es[n - 1]) || (SavedLast(s, ws, es, i, n - 1) && es[n - 1] != ClearFile(true))
  {
    if SavesMemory(s, ws[n - 1], es[n - 1]) {
      assert NotCleared(es, n, n);
    }
    if SavedLast(s, ws, es, i, n) && !SavesMemory(s, ws[n - 1], es[n - 1]) {
      var k: nat :| i <= k < n && SavesMemory(s, ws[k], es[k]) && NotCleared(es, k + 1, n);
      assert NotCleared(es, k + 1, n - 1);
    }
    if SavedLast(s, ws, es, i, n - 1) && es[n - 1] != ClearFile(true) {
      var k: nat :| i <= k < n - 1 && SavesMemory(s, ws[k], es[k]) && NotCleared(es, k + 1, n - 1);
      assert NotCleared(es, k + 1, n);
    }
  }

  /** A running server still has the grant in memory. */
  ghost predicate Remembers(s: Site, w: World, g: Grant) {
    && (w.mem.Some? ==> HeldInMemory(w.mem.value, g))
    && g.mac != "" && g.mac !in s.statics && Canon(g.mac) == g.mac && s.InPool(g.ip) && g.ip !in s.StaticIPs()
    && w.clock < g.expires <= w.clock + s.leaseTime
  }

  /** The file has the grant, or it has no lease at all. */
  ghost predicate FileSays(w: World, g: Grant, back: bool) {
    w.file.Holds? && if back then HeldInFile(w.file.f, g, w.clock) else w.file.f.leases == map[]
  }

  lemma StepRemembers(s: Site, w: World, e: Event, w': World, g: Grant)
    requires s.Ok() && Step(s, w, e, w') && Safe(s, w) && Remembers(s, w, g) && w'.clock < g.expires
    requires !Ends(e, g) && !e.Start?
    ensures Remembers(s, w', g)
  {
    if w.mem.Some? { StepKeepsInMemory(s, w, e, w', g); }
  }

  lemma StepSays(s: Site, w: World, e: Event, w': World, g: Grant, back: bool)
    requires s.Ok() && s.leaseFile != "" && Step(s, w, e, w') && Safe(s, w') && Remembers(s, w', g) && FileSays(w, g, back)
    ensures FileSays(w', g, SavesMemory(s, w, e) || (back && e != ClearFile(true)))
  {
    FileSteps(s, w, e, w');
    if SavesMemory(s, w, e) {
      SavedHolds(s, w'.mem.value, g, w'.clock);
    } else if e == ClearFile(true) {
      ClearedFile(w');
    } else {
      ClockAdvances(s, w, e, w');
    }
  }

  lemma ClearedFile(w: World)
    requires w.file == Holds(Save(NO_LEASES))
    ensures w.file.f.leases == map[]
  {
    SaveFacts(NO_LEASES);
  }

  /** After the clear: the server remembers the grant, and the file has it if the server has saved since. */
  ghost predicate Clearing(s: Site, w: World, g: Grant, back: bool) {
    Safe(s, w) && Remembers(s, w, g) && FileSays(w, g, back)
  }

  /** The event neither ends the grant in memory nor starts a server. */
  predicate Spares(e: Event, g: Grant) {
    Proper(e) && !Ends(e, g) && !e.Start?
  }

  lemma JustCleared(s: Site, w: World, w': World, g: Grant)
    requires s.Ok() && s.leaseFile != "" && Step(s, w, ClearFile(true), w') && w'.clock < g.expires
    requires Safe(s, w) && Held(s, w, g)
    ensures Clearing(s, w', g, false)
  {
    StepKeepsSafe(s, w, ClearFile(true), w');
    ClearedFile(w');
  }

  lemma ClearedStep(s: Site, w: World, e: Event, w': World, g: Grant, back: bool)
    requires s.Ok() && s.leaseFile != "" && Step(s, w, e, w') && w'.clock < g.expires
    requires Clearing(s, w, g, back) && Spares(e, g)
    ensures Clearing(s, w', g, SavesMemory(s, w, e) || (back && e != ClearFile(true)))
  {
    StepRemembers(s, w, e, w', g);
    StepKeepsSafe(s, w, e, w');
    StepSays(s, w, e, w', g, back);
  }

  lemma {:induction false} ClearedThrough(s: Site, ws: seq<World>, es: seq<Event>, i: nat, n: nat, g: Grant)
    requires s.Ok() && s.leaseFile != "" && Run(s, ws, es) && i <= n < |ws|
    requires Clearing(s, ws[i], g, false) && ws[n].clock < g.expires
    requires forall k | i <= k < n :: Spares(es[k], g)
    ensures Clearing(s, ws[n], g, SavedLast(s, ws, es, i, n))
    decreases n
  {
    if i < n {
      var w, e, w' := ws[n - 1], es[n - 1], ws[n];
      assert Step(s, w, e, w') && Spares(e, g);
      ClockAdvances(s, w, e, w');
      ClearedThrough(s, ws, es, i, n - 1, g);
      ClearedStep(s, w, e, w', g, SavedLast(s, ws, es, i, n - 1));
      SavedLastGrows(s, ws, es, i, n);
    }
  }

  /**
   What a clear of the file is worth beside a running server: at the next start a live lease
   is gone, unless the server, for whatever client, wrote its memory after the last clear;
   then it is back.
   */
  lemma ClearedBackIff(s: Site, ws: seq<World>, es: seq<Event>, i: nat, j: nat, g: Grant)
    requires s.Ok() && s.leaseFile != "" && Run(s, ws, es) && i < j < |es|
    requires Safe(s, ws[0]) && forall e | e in es :: Proper(e)
    requires es[i] == ClearFile(true) && Held(s, ws[i], g) && ws[j].clock < g.expires
    requires forall k | i < k < j :: !Ends(es[k], g) && !es[k].Start?
    requires es[j] == Start(true)
    ensures ws[j + 1].mem.Some?
    ensures g.mac in ws[j + 1].mem.value.dynamic <==> SavedLast(s, ws, es, i + 1, j)
    ensures SavedLast(s, ws, es, i + 1, j) ==> HeldInMemory(ws[j + 1].mem.value, g)
  {
    RunKeepsSafe(s, ws, es, i);
    ClockRuns(s, ws, es, i + 1, j);
    JustCleared(s, ws[i], ws[i + 1], g);
    ClearedThrough(s, ws, es, i + 1, j, g);
    assert Step(s, ws[j], es[j], ws[j + 1]);
    StartedFrom(s, ws[j].file.f, ws[j].clock, ws[j + 1].mem.value, g, SavedLast(s, ws, es, i + 1, j));
  }

  lemma StartedFrom(s: Site, f: FileFormat, now: int, t: Tables, g: Grant, back: bool)
    requires Loaded(s, f, now, t) && now < g.expires
    requires g.mac != "" && g.mac !in s.statics && Canon(g.mac) == g.mac && s.InPool(g.ip) && g.ip !in s.StaticIPs()
    requires if back then HeldInFile(f, g, now) else f.leases == map[]
    ensures g.mac in t.dynamic <==> back
    ensures back ==> HeldInMemory(t, g)
  {
    if back {
      LoadedHolds(s, f, now, t, g);
    } else if g.mac in t.dynamic {
      var k := LoadedUnder(s, f, now, t, g.mac);
    }
  }
}
