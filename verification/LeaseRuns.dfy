/**
 Whole runs of the lease server: operations in any order, saves that fail, a clock that
 only moves forward, crashes and restarts at any point, and the maintenance command that
 clears the file from another process.
 */
module LeaseRuns {
  import opened Wrappers
  import opened MacText
  import opened IpText
  import opened Ip6Text
  import opened LeaseModel
  import opened LeaseInvariants
  import opened LeaseSafety

  /** Memory of the running server (none while it is down), the lease file, the clock. */
  datatype World = World(mem: Option<Tables>, file: Content, clock: int)

  datatype Event =
    | Wait(until: int)
    | AllocateFor(mac: string, diskOk: bool)
    | LookUp(mac: string)
    | ReleaseBy(mac: string, ip: Option<U32>, diskOk: bool)
    | DeclineBy(mac: string, ip: Option<U32>, diskOk: bool)
    | ClearAll(diskOk: bool)
    | ClearFile(diskOk: bool)
    | Crash
    | Start(readable: bool)

  ghost predicate Step(s: Site, w: World, e: Event, w': World)
    requires s.Ok()
  {
    match e
    case Wait(until) => until >= w.clock && w' == w.(clock := until)
    case AllocateFor(mac, diskOk) =>
      && w.mem.Some?
      && var a := Allocate(s, w.mem.value, w.clock, Canon(mac));
      && var saves := a.lease.Success? && Canon(mac) !in s.statics;
      && w' == w.(mem := Some(a.tables), file := if saves then FileAfterSave(s, w.file, a.tables, diskOk) else w.file)
    case LookUp(mac) => w.mem.Some? && w' == w
    case ReleaseBy(mac, ip, diskOk) =>
      && w.mem.Some?
      && var t := Release(w.mem.value, Canon(mac), ip);
      && w' == w.(mem := Some(t), file := if Releases(w.mem.value, Canon(mac), ip)
                                          then FileAfterSave(s, w.file, t, diskOk) else w.file)
    case DeclineBy(mac, ip, diskOk) =>
      && w.mem.Some?
      && if ip.None? then w' == w else
           var t := Decline(s, w.mem.value, w.clock, Canon(mac), ip.value);
           w' == w.(mem := Some(t), file := FileAfterSave(s, w.file, t, diskOk))
    case ClearAll(diskOk) =>
      w.mem.Some? && w' == w.(mem := Some(NO_LEASES), file := FileAfterSave(s, w.file, NO_LEASES, diskOk))
    case ClearFile(diskOk) =>
      w' == w.(file := FileAfterSave(s, w.file, NO_LEASES, diskOk))
    case Crash => w' == w.(mem := None)
    case Start(readable) =>
      && w.mem.None?
      && if s.leaseFile != "" && (!readable || w.file.Garbled?) then w' == w
         else if s.leaseFile == "" || w.file.Absent? then w' == w.(mem := Some(NO_LEASES))
         else w'.mem.Some? && w' == w.(mem := w'.mem) && Loaded(s, w.file.f, w.clock, w'.mem.value)
  }

  ghost predicate Run(s: Site, ws: seq<World>, es: seq<Event>)
    requires s.Ok()
  {
    |ws| == |es| + 1 && forall i {:trigger es[i]} | 0 <= i < |es| :: Step(s, ws[i], es[i], ws[i + 1])
  }

  datatype Grant = Grant(mac: string, ip: U32, expires: int)

  /** What the allocation hands out, even when its save failed. */
  function Offered(s: Site, w: World, e: Event): Option<Grant>
    requires s.Ok()
  {
    if e.AllocateFor? && w.mem.Some? then
      match Allocate(s, w.mem.value, w.clock, Canon(e.mac)).lease
      case Success(l) => Some(Grant(Canon(e.mac), l.ip, l.expires))
      case Failure(_) => None
    else None
  }

  /** The lease that the caller of an operation is given. */
  function Answer(s: Site, w: World, e: Event): Option<Lease>
    requires s.Ok()
  {
    if w.mem.None? then None
    else
      match e
      case AllocateFor(mac, _) =>
        var a := Allocate(s, w.mem.value, w.clock, Canon(mac));
        if a.lease.Success? then Some(a.lease.value) else None
      case LookUp(mac) => Lookup(s, w.mem.value, w.clock, Canon(mac))
      case _ => None
  }

  /** The grant that reaches the client: the reply is withheld when the allocation reports an error. */
  function Acked(s: Site, w: World, e: Event): Option<Grant>
    requires s.Ok()
  {
    if e.AllocateFor? && (Canon(e.mac) in s.statics || SaveError(s, e.diskOk).None?) then Offered(s, w, e) else None
  }

  /** The event ends the grant early: its holder gives it up, the address is declined, leases are cleared. */
  predicate Voids(e: Event, g: Grant) {
    match e
    case ReleaseBy(mac, ip, _) => Canon(mac) == g.mac && (ip.None? || ip.value == g.ip)
    case DeclineBy(_, ip, _) => ip == Some(g.ip)
    case ClearAll(_) => true
    case ClearFile(diskOk) => diskOk
    case _ => false
  }

  /** The step replaces the file. */
  ghost predicate Writes(s: Site, w: World, e: Event)
    requires s.Ok()
  {
    s.leaseFile != "" &&
    match e
    case AllocateFor(mac, diskOk) =>
      diskOk && w.mem.Some? && Canon(mac) !in s.statics && Allocate(s, w.mem.value, w.clock, Canon(mac)).lease.Success?
    case ReleaseBy(mac, ip, diskOk) => diskOk && w.mem.Some? && Releases(w.mem.value, Canon(mac), ip)
    case DeclineBy(_, ip, diskOk) => diskOk && ip.Some?
    case ClearAll(diskOk) => diskOk
    case ClearFile(diskOk) => diskOk
    case _ => false
  }

  /** The server writes its memory to the file. */
  ghost predicate SavesMemory(s: Site, w: World, e: Event)
    requires s.Ok()
  {
    Writes(s, w, e) && !e.ClearFile?
  }

  /** A server without a lease file forgets everything when it restarts. */
  predicate Forgets(s: Site, e: Event) {
    s.leaseFile == "" && e.Start?
  }

  /** The MAC of an allocation is one that `canon` settles in one pass; printed hardware addresses all are. */
  predicate Proper(e: Event) {
    e.AllocateFor? ==> !PaddedForeignSpelling(e.mac)
  }

  // ---------- invariants of every run ----------

  /** Distinct MACs hold distinct pool addresses, none static.  Holds from any lease file whatever. */
  ghost predicate AlwaysSound(s: Site, w: World) {
    w.mem.Some? ==> Sound(s, w.mem.value)
  }

  lemma StepKeepsSound(s: Site, w: World, e: Event, w': World)
    requires s.Ok() && Step(s, w, e, w') && AlwaysSound(s, w)
    ensures AlwaysSound(s, w')
  {
    match e
    case AllocateFor(mac, _) => AllocateKeeps(s, w.mem.value, w.clock, Canon(mac));
    case ReleaseBy(mac, ip, _) => ReleaseKeeps(s, w.mem.value, Canon(mac), ip);
    case DeclineBy(mac, ip, _) =>
      if ip.Some? { DeclineKeeps(s, w.mem.value, w.clock, Canon(mac), ip.value); }
    case Start(_) =>
      if w'.mem.Some? && s.leaseFile != "" && w.file.Holds? { LoadedSound(s, w.file.f, w.clock, w'.mem.value); }
    case _ =>
  }

  /**
   Robust uniqueness: a server started on any decodable lease file, with any operations,
   failures and restarts after, never holds one address for two MACs, nor a static one.
   */
  lemma {:induction false} RobustUniqueness(s: Site, ws: seq<World>, es: seq<Event>, i: nat, m: string, n: string)
    requires s.Ok() && Run(s, ws, es) && ws[0].mem.None? && i < |ws|
    ensures ws[i].mem.Some? ==> Sound(s, ws[i].mem.value)
    ensures ws[i].mem.Some? && m in ws[i].mem.value.dynamic && n in ws[i].mem.value.dynamic && m != n ==>
            ws[i].mem.value.dynamic[m].ip != ws[i].mem.value.dynamic[n].ip
    decreases i
  {
    if i > 0 {
      RobustUniqueness(s, ws, es, i - 1, m, n);
      StepKeepsSound(s, ws[i - 1], es[i - 1], ws[i]);
      if ws[i].mem.Some? && m in ws[i].mem.value.dynamic && n in ws[i].mem.value.dynamic {
        SoundUnique(s, ws[i].mem.value, m, n);
      }
    }
  }

  /** Memory and file are such that no MAC has, or can come to have, two addresses. */
  ghost predicate Safe(s: Site, w: World) {
    && (w.mem.Some? ==> MemorySafe(s, w.mem.value, w.clock))
    && (s.leaseFile != "" && w.file.Holds? ==> FileSafe(s, w.file.f, w.clock))
  }

  lemma StepKeepsMemorySafe(s: Site, w: World, e: Event, w': World)
    requires s.Ok() && Step(s, w, e, w') && Safe(s, w) && Proper(e)
    ensures w'.mem.Some? ==> MemorySafe(s, w'.mem.value, w'.clock)
  {
    match e
    case Wait(until) => if w.mem.Some? { MemorySafeLater(s, w.mem.value, w.clock, until); }
    case AllocateFor(mac, _) =>
      CanonIdempotentIff(mac);
      AllocateKeepsSafe(s, w.mem.value, w.clock, Canon(mac));
    case ReleaseBy(mac, ip, _) => ReleaseKeepsSafe(s, w.mem.value, w.clock, Canon(mac), ip);
    case DeclineBy(mac, ip, _) =>
      if ip.Some? { DeclineKeepsSafe(s, w.mem.value, w.clock, Canon(mac), ip.value); }
    case Start(_) =>
      if w'.mem.Some? && s.leaseFile != "" && w.file.Holds? { LoadedIsSafe(s, w.file.f, w.clock, w'.mem.value); }
    case _ =>
  }

  /** A step leaves the file alone or, when there is one, replaces it by its new memory or by an empty record. */
  lemma FileSteps(s: Site, w: World, e: Event, w': World)
    requires s.Ok() && Step(s, w, e, w')
    ensures if SavesMemory(s, w, e) then s.leaseFile != "" && w'.mem.Some? && w'.file == Holds(Save(w'.mem.value))
            else if Writes(s, w, e) then s.leaseFile != "" && e == ClearFile(true) && w'.file == Holds(Save(NO_LEASES))
            else w'.file == w.file
  {
  }

  /** What the server saves is never locked: the operation gave a lease to a MAC that can ask, or took an entry away. */
  lemma SavedUnlocked(s: Site, w: World, e: Event, w': World)
    requires s.Ok() && Step(s, w, e, w') && Safe(s, w) && Proper(e) && SavesMemory(s, w, e)
    ensures w'.mem.Some? && Unlocked(w'.mem.value)
  {
    match e
    case AllocateFor(mac, _) =>
      CanonIdempotentIff(mac);
      AllocatedUnlocked(s, w.mem.value, w.clock, Canon(mac));
    case ReleaseBy(mac, _, _) => assert w.mem.value.dynamic[Canon(mac)].ip !in w'.mem.value.byIP;
    case DeclineBy(_, ip, _) => assert ip.value !in w'.mem.value.byIP;
    case ClearAll(_) => assert 0 !in w'.mem.value.byIP;
  }

  lemma AllocatedUnlocked(s: Site, t: Tables, now: int, m: string)
    requires s.Ok() && Sound(s, t) && Canon(m) == m && m !in s.statics && Allocate(s, t, now, m).lease.Success?
    ensures Unlocked(Allocate(s, t, now, m).tables)
  {
    var u := Allocate(s, t, now, m).tables;
    AllocateKeeps(s, t, now, m);
    assert m in u.dynamic && u.byIP[u.dynamic[m].ip] == m;
  }

  lemma StepKeepsSafe(s: Site, w: World, e: Event, w': World)
    requires s.Ok() && Step(s, w, e, w') && Safe(s, w) && Proper(e)
    ensures Safe(s, w')
  {
    StepKeepsMemorySafe(s, w, e, w');
    FileSteps(s, w, e, w');
    if SavesMemory(s, w, e) {
      SavedUnlocked(s, w, e, w');
      SavedIsSafe(s, w'.mem.value, w'.clock);
    } else if Writes(s, w, e) {
      assert 0 !in NO_LEASES.byIP;
      SavedIsSafe(s, NO_LEASES, w'.clock);
    } else if s.leaseFile != "" && w.file.Holds? {
      FileSafeLater(s, w.file.f, w.clock, w'.clock);
    }
  }

  lemma {:induction false} RunKeepsSafe(s: Site, ws: seq<World>, es: seq<Event>, i: nat)
    requires s.Ok() && Run(s, ws, es) && i < |ws|
    requires Safe(s, ws[0]) && forall e | e in es :: Proper(e)
    ensures Safe(s, ws[i])
    decreases i
  {
    if i > 0 {
      RunKeepsSafe(s, ws, es, i - 1);
      StepKeepsSafe(s, ws[i - 1], es[i - 1], ws[i]);
    }
  }

  // ---------- an acknowledged grant stays in memory and in the file ----------

  ghost predicate HeldInMemory(t: Tables, g: Grant) {
    g.mac in t.dynamic && t.dynamic[g.mac].ip == g.ip && t.dynamic[g.mac].expires >= g.expires
  }

  /** The file has the grant, and no other record that has not run out has its address or its MAC. */
  ghost predicate HeldInFile(f: FileFormat, g: Grant, now: int) {
    && g.mac in f.leases && f.leases[g.mac].ip == IpString(g.ip) && f.leases[g.mac].expires >= g.expires
    && forall k | k in f.leases && f.leases[k].expires > now && k != g.mac ::
         ParseIp4(f.leases[k].ip) != Some(g.ip) && Canon(k) != g.mac
  }

  ghost predicate Held(s: Site, w: World, g: Grant) {
    && g.mac != "" && g.mac !in s.statics && Canon(g.mac) == g.mac && s.InPool(g.ip) && g.ip !in s.StaticIPs()
    && g.expires <= w.clock + s.leaseTime
    && (w.mem.Some? ==> HeldInMemory(w.mem.value, g))
    && (s.leaseFile != "" ==> w.file.Holds? && HeldInFile(w.file.f, g, w.clock))
  }

  lemma SavedHolds(s: Site, t: Tables, g: Grant, now: int)
    requires MemorySafe(s, t, now) && HeldInMemory(t, g) && now < g.expires && Canon(g.mac) == g.mac && g.mac !in s.statics
    ensures HeldInFile(Save(t), g, now)
  {
    SaveFacts(t);
    forall k | k in t.dynamic && t.dynamic[k].expires > now && k != g.mac
      ensures ParseIp4(IpString(t.dynamic[k].ip)) != Some(g.ip) && Canon(k) != g.mac
    {
      SoundUnique(s, t, k, g.mac);
      PrintedParses(t.dynamic[k].ip);
      OnlyForm(s, t, now, k, g.mac);
    }
  }

  /** No other live lease is read back as that of a MAC that requests can come from. */
  lemma OnlyForm(s: Site, t: Tables, now: int, k: string, m: string)
    requires FormsApart(s, t, now) && LiveIn(t, now, k) && LiveIn(t, now, m) && Canon(m) == m && m !in s.statics && k != m
    ensures Canon(k) != m
  {
    assert !Locked(t, k, m);
    assert Canon(k) == Canon(m) && Canon(k) !in s.statics ==> k == m || Locked(t, k, m);
  }

  /** A reload finds the grant: no other record of the file can take its MAC or its address. */
  lemma LoadedHolds(s: Site, f: FileFormat, now: int, t: Tables, g: Grant)
    requires Loaded(s, f, now, t) && HeldInFile(f, g, now) && now < g.expires
    requires g.mac != "" && g.mac !in s.statics && Canon(g.mac) == g.mac && s.InPool(g.ip) && g.ip !in s.StaticIPs()
    ensures HeldInMemory(t, g)
  {
    LoadedFacts(s, f, now, t);
    PrintedParses(g.ip);
    assert Source(s, f, now, g.mac, g.mac, g.ip);
    assert g.ip in t.byIP;
    var m := t.byIP[g.ip];
    assert Origin(s, f, now, f.leases.Keys, m, g.ip);
    assert m == g.mac;
    assert LeaseOrigin(s, f, now, f.leases.Keys, m, t.dynamic[m]);
  }

  lemma AllocateKeepsHeld(s: Site, t: Tables, now: int, m: string, g: Grant)
    requires s.Ok() && Sound(s, t) && HeldInMemory(t, g) && now < g.expires <= now + s.leaseTime
    ensures HeldInMemory(Allocate(s, t, now, m).tables, g)
  {
    if m != "" && m !in s.statics {
      AllocateShape(s, t, now, m);
    }
  }

  /** A decline of another address leaves the holder alone: no entry of its is stale. */
  lemma DeclineSpares(s: Site, t: Tables, now: int, m: string, v: U32, g: Grant)
    requires SettledBacked(t) && HeldInMemory(t, g) && Canon(g.mac) == g.mac && v != g.ip
    ensures HeldInMemory(Decline(s, t, now, m, v), g)
  {
    assert v in t.byIP ==> t.byIP[v] != g.mac;
  }

  /** While the process lives the grant stays in memory, whatever becomes of the file. */
  lemma StepKeepsInMemory(s: Site, w: World, e: Event, w': World, g: Grant)
    requires s.Ok() && Step(s, w, e, w') && Safe(s, w) && w.mem.Some? && HeldInMemory(w.mem.value, g) && Canon(g.mac) == g.mac
    requires w.clock < g.expires <= w.clock + s.leaseTime && (Voids(e, g) ==> e.ClearFile?)
    ensures w'.mem.Some? ==> HeldInMemory(w'.mem.value, g)
  {
    match e
    case AllocateFor(mac, _) => AllocateKeepsHeld(s, w.mem.value, w.clock, Canon(mac), g);
    case DeclineBy(mac, ip, _) =>
      if ip.Some? { DeclineSpares(s, w.mem.value, w.clock, Canon(mac), ip.value, g); }
    case _ =>
  }

  lemma StepKeepsHeldInMemory(s: Site, w: World, e: Event, w': World, g: Grant)
    requires s.Ok() && Step(s, w, e, w') && Safe(s, w) && Held(s, w, g)
    requires w.clock < g.expires && !Voids(e, g) && !Forgets(s, e)
    ensures w'.mem.Some? ==> HeldInMemory(w'.mem.value, g)
  {
    if w.mem.Some? {
      StepKeepsInMemory(s, w, e, w', g);
    } else if w'.mem.Some? {
      LoadedHolds(s, w.file.f, w.clock, w'.mem.value, g);
    }
  }

  lemma StepKeepsHeld(s: Site, w: World, e: Event, w': World, g: Grant)
    requires s.Ok() && Step(s, w, e, w') && Safe(s, w) && Proper(e) && Held(s, w, g)
    requires w.clock < g.expires && !Voids(e, g) && !Forgets(s, e)
    ensures Held(s, w', g)
  {
    StepKeepsHeldInMemory(s, w, e, w', g);
    StepKeepsSafe(s, w, e, w');
    FileSteps(s, w, e, w');
    if w'.file != w.file {
      SavedHolds(s, w'.mem.value, g, w'.clock);
    }
  }

  /** The lease that an allocation hands out is in memory, with its expiry. */
  lemma OfferedIsHeld(s: Site, w: World, e: Event)
    requires s.Ok() && AlwaysSound(s, w) && Offered(s, w, e).Some? && Canon(e.mac) !in s.statics
    ensures var g, t := Offered(s, w, e).value, Allocate(s, w.mem.value, w.clock, Canon(e.mac)).tables;
      HeldInMemory(t, g) && g.mac == Canon(e.mac) != "" && g.expires == w.clock + s.leaseTime && Sound(s, t)
  {
    AllocateKeeps(s, w.mem.value, w.clock, Canon(e.mac));
  }

  lemma AckedIsHeld(s: Site, w: World, e: Event, w': World, g: Grant)
    requires s.Ok() && Step(s, w, e, w') && Safe(s, w) && Proper(e)
    requires Acked(s, w, e) == Some(g) && g.mac !in s.statics
    ensures Held(s, w', g)
  {
    AckedMac(s, w, e, g);
    OfferedIsHeld(s, w, e);
    StepKeepsSafe(s, w, e, w');
    CanonIdempotentIff(e.mac);
    AckedIsSaved(s, w, e, w');
    SavedHolds(s, w'.mem.value, g, w'.clock);
  }

  /** After an acknowledged dynamic allocation the file, if there is one, is the new memory. */
  lemma AckedIsSaved(s: Site, w: World, e: Event, w': World)
    requires s.Ok() && Step(s, w, e, w') && Acked(s, w, e).Some? && Canon(e.mac) !in s.statics
    ensures w'.mem == Some(Allocate(s, w.mem.value, w.clock, Canon(e.mac)).tables) && w'.clock == w.clock
    ensures s.leaseFile != "" ==> w'.file == Holds(Save(w'.mem.value))
    ensures Acked(s, w, e) == Offered(s, w, e)
  {
  }

  /** The MAC of an acknowledged grant is the one that asked. */
  lemma AckedMac(s: Site, w: World, e: Event, g: Grant)
    requires s.Ok() && Acked(s, w, e) == Some(g)
    ensures e.AllocateFor? && g.mac == Canon(e.mac)
  {
  }

  lemma ClockAdvances(s: Site, w: World, e: Event, w': World)
    requires s.Ok() && Step(s, w, e, w')
    ensures w.clock <= w'.clock
  {
  }

  lemma {:induction false} ClockRuns(s: Site, ws: seq<World>, es: seq<Event>, i: nat, n: nat)
    requires s.Ok() && Run(s, ws, es) && i <= n < |ws|
    ensures ws[i].clock <= ws[n].clock
    decreases n
  {
    if i < n {
      ClockRuns(s, ws, es, i, n - 1);
      ClockAdvances(s, ws[n - 1], es[n - 1], ws[n]);
    }
  }

  lemma {:induction false} HeldThrough(s: Site, ws: seq<World>, es: seq<Event>, i: nat, j: nat, g: Grant)
    requires s.Ok() && Run(s, ws, es) && i < j < |ws|
    requires Safe(s, ws[0]) && forall e | e in es :: Proper(e)
    requires Acked(s, ws[i], es[i]) == Some(g) && g.mac !in s.statics
    requires ws[j].clock < g.expires
    requires forall k | i < k < j :: !Voids(es[k], g) && !Forgets(s, es[k])
    ensures Held(s, ws[j], g)
    decreases j
  {
    var w, e, w' := ws[j - 1], es[j - 1], ws[j];
    assert e in es && Proper(e);
    assert Step(s, w, e, w');
    RunKeepsSafe(s, ws, es, j - 1);
    if j == i + 1 {
      AckedIsHeld(s, w, e, w', g);
    } else {
      ClockAdvances(s, w, e, w');
      HeldThrough(s, ws, es, i, j - 1, g);
      StepKeepsHeld(s, w, e, w', g);
    }
  }

  /** What is handed out while a grant is held: its own address to its holder, and to nobody else. */
  lemma HeldDecides(s: Site, w: World, e: Event, g: Grant)
    requires s.Ok() && Safe(s, w) && Held(s, w, g) && w.clock < g.expires && e.AllocateFor? && w.mem.Some?
    ensures Canon(e.mac) == g.mac ==> Offered(s, w, e).Some? && Offered(s, w, e).value.ip == g.ip
    ensures Canon(e.mac) != g.mac && Offered(s, w, e).Some? ==> Offered(s, w, e).value.ip != g.ip
  {
    var m := Canon(e.mac);
    AllocateKeepsHeld(s, w.mem.value, w.clock, m, g);
    if m in s.statics {
      assert s.statics[m].ip in s.StaticIPs();
    } else if Offered(s, w, e).Some? {
      OfferedIsHeld(s, w, e);
      SoundUnique(s, Allocate(s, w.mem.value, w.clock, m).tables, m, g.mac);
    }
  }

  /**
   Whole-run exclusivity, through expiry, renewal, failed saves, crashes and restarts: from
   an acknowledged grant until it expires, is released, declined or cleared, no other MAC is
   handed its address, unless both MACs are static (two bindings may share an address).
   */
  lemma Exclusivity(s: Site, ws: seq<World>, es: seq<Event>, i: nat, j: nat, g: Grant, h: Grant)
    requires s.Ok() && Run(s, ws, es) && i < j < |es|
    requires Safe(s, ws[0]) && forall e | e in es :: Proper(e)
    requires Acked(s, ws[i], es[i]) == Some(g) && Offered(s, ws[j], es[j]) == Some(h)
    requires ws[j].clock < g.expires
    requires forall k | i < k < j :: !Voids(es[k], g) && !Forgets(s, es[k])
    requires h.ip == g.ip && h.mac != g.mac
    ensures g.mac in s.statics && h.mac in s.statics && s.statics[g.mac].ip == s.statics[h.mac].ip
  {
    RunKeepsSafe(s, ws, es, j);
    if g.mac !in s.statics {
      HeldThrough(s, ws, es, i, j, g);
      HeldDecides(s, ws[j], es[j], g);
    } else if h.mac !in s.statics {
      assert s.statics[g.mac].ip in s.StaticIPs();
      OfferedIsHeld(s, ws[j], es[j]);
    }
  }

  /**
   Offer and acknowledgement agree (section 3.1 of RFC 2131): while a grant is live, a
   further request by its holder is given the same address, whatever happened in between.
   */
  lemma SameAddress(s: Site, ws: seq<World>, es: seq<Event>, i: nat, j: nat, g: Grant)
    requires s.Ok() && Run(s, ws, es) && i < j < |es|
    requires Safe(s, ws[0]) && forall e | e in es :: Proper(e)
    requires Acked(s, ws[i], es[i]) == Some(g) && ws[j].clock < g.expires
    requires forall k | i < k < j :: !Voids(es[k], g) && !Forgets(s, es[k])
    requires es[j].AllocateFor? && Canon(es[j].mac) == g.mac
    ensures Offered(s, ws[j], es[j]).Some? && Offered(s, ws[j], es[j]).value.ip == g.ip
  {
    assert Step(s, ws[j], es[j], ws[j + 1]);
    RunKeepsSafe(s, ws, es, j);
    if g.mac !in s.statics {
      HeldThrough(s, ws, es, i, j, g);
      HeldDecides(s, ws[j], es[j], g);
    }
  }
}
