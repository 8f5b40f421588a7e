/** Where the guarantees of the lease server end, exactly. */
module LeaseLimits {
  import opened Wrappers
  import opened MacText
  import opened IpText
  import opened LeaseModel
  import opened LeaseInvariants
  import opened LeaseRuns

  // ---------- a server without a lease file ----------

  /** A first start: nothing in memory, no file yet. */
  predicate Cold(w: World) {
    w.mem.None? && w.file.Absent?
  }

  /** A run in which the address of a live acknowledged grant is acknowledged to another MAC. */
  ghost predicate ToldTwice(s: Site, ws: seq<World>, es: seq<Event>, i: nat, j: nat, g: Grant, h: Grant)
    requires s.Ok()
  {
    && Run(s, ws, es) && (forall e | e in es :: Proper(e)) && i < j < |es|
    && Acked(s, ws[i], es[i]) == Some(g) && Acked(s, ws[j], es[j]) == Some(h)
    && ws[j].clock < g.expires && (forall k | i < k < j :: !Voids(es[k], g))
    && h.ip == g.ip && h.mac != g.mac
  }

  /** The same, and not both MACs have static bindings. */
  ghost predicate Shared(s: Site, ws: seq<World>, es: seq<Event>, i: nat, j: nat, g: Grant, h: Grant)
    requires s.Ok()
  {
    ToldTwice(s, ws, es, i, j, g, h) && !(g.mac in s.statics && h.mac in s.statics)
  }

  /** The printed form of an address of `n` zero octets, a MAC longer than `n` characters. */
  function ZeroMac(n: nat): string {
    HwString(seq(n, _ => 0))
  }

  lemma ZeroMacProper(n: nat)
    requires n > 0
    ensures |ZeroMac(n)| == 3 * n - 1 && Canon(ZeroMac(n)) == ZeroMac(n) && !PaddedForeignSpelling(ZeroMac(n))
  {
    SpellLength(seq(n, _ => 0), ':');
    HwStringLower(seq(n, _ => 0));
    CanonOfHwString(seq(n, _ => 0));
  }

  /** What an empty server gives a MAC without static binding. */
  lemma EmptyServerGrants(s: Site, mac: string, diskOk: bool) returns (v: U32)
    requires s.Ok() && s.Pool() - s.StaticIPs() != {} && s.leaseFile == ""
    requires Canon(mac) == mac && mac != "" && mac !in s.statics
    ensures FirstFree(s.StaticIPs(), s.poolStart, s.poolEnd) == Some(v)
    ensures Acked(s, UP, AllocateFor(mac, diskOk)) == Some(Grant(mac, v, s.leaseTime))
  {
    assert Reap(NO_LEASES, 0) == NO_LEASES;
    assert Taken(s, NO_LEASES, 0) == s.StaticIPs();
    FirstFreeLeast(s.StaticIPs(), s.poolStart, s.poolEnd);
    var u :| u in s.Pool() - s.StaticIPs();
    v := FirstFree(s.StaticIPs(), s.poolStart, s.poolEnd).value;
  }

  const UP := World(Some(NO_LEASES), Absent, 0)
  const DOWN := World(None, Absent, 0)

  function Served(s: Site, mac: string): World
    requires s.Ok()
  {
    World(Some(Allocate(s, NO_LEASES, 0, mac).tables), Absent, 0)
  }

  lemma ForgetfulSteps(s: Site, mac: string)
    requires s.Ok() && s.leaseFile == "" && Canon(mac) == mac
    ensures Step(s, DOWN, Start(true), UP)
    ensures Step(s, UP, AllocateFor(mac, true), Served(s, mac))
    ensures Step(s, Served(s, mac), Crash, DOWN)
  {
  }

  /** Start, serve one MAC, crash, start again, serve another. */
  lemma ForgetfulRun(s: Site, a: string, b: string) returns (ws: seq<World>, es: seq<Event>)
    requires s.Ok() && s.leaseFile == "" && Canon(a) == a && Canon(b) == b
    ensures ws == [DOWN, UP, Served(s, a), DOWN, UP, Served(s, b)]
    ensures es == [Start(true), AllocateFor(a, true), Crash, Start(true), AllocateFor(b, true)]
    ensures Run(s, ws, es)
  {
    ws := [DOWN, UP, Served(s, a), DOWN, UP, Served(s, b)];
    es := [Start(true), AllocateFor(a, true), Crash, Start(true), AllocateFor(b, true)];
    ForgetfulSteps(s, a);
    ForgetfulSteps(s, b);
    var states, events := ws, es;
    forall i | 0 <= i < 5 ensures Step(s, states[i], events[i], states[i + 1]) {
      if i == 0 {} else if i == 1 {} else if i == 2 {} else if i == 3 {} else {}
    }
  }

  lemma ForgetfulServerShares(s: Site) returns (ws: seq<World>, es: seq<Event>, g: Grant, h: Grant)
    requires s.Ok() && s.leaseFile == "" && s.Pool() - s.StaticIPs() != {}
    ensures Shared(s, ws, es, 1, 4, g, h) && Cold(ws[0])
  {
    var n := LongerThanAll(s.statics.Keys);
    var a, b := ZeroMac(n + 1), ZeroMac(n + 2);
    ZeroMacProper(n + 1);
    ZeroMacProper(n + 2);
    var v := EmptyServerGrants(s, a, true);
    var w := EmptyServerGrants(s, b, true);
    g, h := Grant(a, v, s.leaseTime), Grant(b, v, s.leaseTime);
    ws, es := ForgetfulRun(s, a, b);
    ForgetfulGrants(s, ws, es, a, b);
  }

  /** The two allocations of the run are those of an empty server, and nothing between them voids the first. */
  lemma ForgetfulGrants(s: Site, ws: seq<World>, es: seq<Event>, a: string, b: string)
    requires s.Ok() && !PaddedForeignSpelling(a) && !PaddedForeignSpelling(b)
    requires ws == [DOWN, UP, Served(s, a), DOWN, UP, Served(s, b)]
    requires es == [Start(true), AllocateFor(a, true), Crash, Start(true), AllocateFor(b, true)]
    ensures ws[1] == ws[4] == UP && es[1] == AllocateFor(a, true) && es[4] == AllocateFor(b, true) && Cold(ws[0])
    ensures forall e | e in es :: Proper(e)
    ensures forall k, g | 1 < k < 4 :: !Voids(es[k], g)
  {
    assert es[2] == Crash && es[3] == Start(true);
  }

  /**
   Exclusivity holds on all runs from a first start, restarts included, exactly when there is
   a lease file or the pool has no address to give.  What a lease file that is there at the
   start must be like is said in LeaseFiles.
   */
  lemma PersistenceIff(s: Site)
    requires s.Ok()
    ensures (exists ws, es, i, j, g, h :: Shared(s, ws, es, i, j, g, h) && Cold(ws[0])) <==>
            s.leaseFile == "" && s.Pool() - s.StaticIPs() != {}
  {
    if s.leaseFile == "" && s.Pool() - s.StaticIPs() != {} {
      var ws, es, g, h := ForgetfulServerShares(s);
    }
    forall ws, es, i, j, g, h | Shared(s, ws, es, i, j, g, h) && Cold(ws[0])
      ensures s.leaseFile == "" && s.Pool() - s.StaticIPs() != {}
    {
      if s.leaseFile != "" {
        Exclusivity(s, ws, es, i, j, g, h);
      }
      SharedIsPooled(s, ws, es, i, j, g, h);
    }
  }

  /** A shared address is a pool address that is not static. */
  lemma SharedIsPooled(s: Site, ws: seq<World>, es: seq<Event>, i: nat, j: nat, g: Grant, h: Grant)
    requires s.Ok() && Shared(s, ws, es, i, j, g, h) && Cold(ws[0])
    ensures g.ip in s.Pool() - s.StaticIPs()
  {
    var k := if g.mac in s.statics then j else i;
    RunKeepsSafe(s, ws, es, k);
    OfferedIsHeld(s, ws[k], es[k]);
    var t := Allocate(s, ws[k].mem.value, ws[k].clock, Canon(es[k].mac)).tables;
    assert t.dynamic[Canon(es[k].mac)].ip == g.ip;
  }

  // ---------- static bindings with one address ----------

  /** Two MACs that requests can come from are bound to one address. */
  predicate BoundTogether(s: Site, a: string, b: string) {
    && a in s.statics && b in s.statics && a != b && s.statics[a].ip == s.statics[b].ip
    && Canon(a) == a != "" && Canon(b) == b != ""
  }

  lemma StaticAcked(s: Site, w: World, a: string)
    requires s.Ok() && w.mem.Some? && a in s.statics && Canon(a) == a != ""
    ensures Step(s, w, AllocateFor(a, true), w) && Proper(AllocateFor(a, true))
    ensures Acked(s, w, AllocateFor(a, true)) == Some(Grant(a, s.statics[a].ip, w.clock + s.leaseTime))
  {
    CanonIdempotentIff(a);
  }

  lemma BoundTogetherToldTwice(s: Site, w: World, a: string, b: string) returns (g: Grant, h: Grant)
    requires s.Ok() && w.mem.Some? && BoundTogether(s, a, b)
    ensures ToldTwice(s, [w, w, w], [AllocateFor(a, true), AllocateFor(b, true)], 0, 1, g, h)
  {
    StaticAcked(s, w, a);
    StaticAcked(s, w, b);
    g := Grant(a, s.statics[a].ip, w.clock + s.leaseTime);
    h := Grant(b, s.statics[b].ip, w.clock + s.leaseTime);
  }

  lemma ToldTwiceAreBound(s: Site, ws: seq<World>, es: seq<Event>, i: nat, j: nat, g: Grant, h: Grant)
    requires s.Ok() && s.leaseFile != "" && ToldTwice(s, ws, es, i, j, g, h) && Safe(s, ws[0])
    ensures BoundTogether(s, g.mac, h.mac)
  {
    Exclusivity(s, ws, es, i, j, g, h);
    AskedSettled(s, ws[i], es[i], g);
    AskedSettled(s, ws[j], es[j], h);
  }

  lemma AskedSettled(s: Site, w: World, e: Event, g: Grant)
    requires s.Ok() && Acked(s, w, e) == Some(g) && Proper(e)
    ensures Canon(g.mac) == g.mac != ""
  {
    AckedMac(s, w, e, g);
    CanonIdempotentIff(e.mac);
  }

  /**
   The one exemption from exclusivity: from a safe world with a lease file, two MACs come to
   hold one live acknowledged address exactly when they can have static bindings to it.
   */
  lemma StaticsShareIff(s: Site, w: World)
    requires s.Ok() && s.leaseFile != "" && Safe(s, w) && w.mem.Some?
    ensures (exists ws, es, i, j, g, h :: ToldTwice(s, ws, es, i, j, g, h) && ws[0] == w) <==>
            exists a, b :: BoundTogether(s, a, b)
  {
    if a, b :| BoundTogether(s, a, b) {
      var g, h := BoundTogetherToldTwice(s, w, a, b);
      assert [w, w, w][0] == w;
    }
    forall ws, es, i, j, g, h | ToldTwice(s, ws, es, i, j, g, h) && ws[0] == w ensures exists a, b :: BoundTogether(s, a, b) {
      ToldTwiceAreBound(s, ws, es, i, j, g, h);
    }
  }

  // ---------- padded spellings ----------

  /**
   Why padded hyphen and dot spellings are set apart: every one of them loses its address
   over a restart.  The file keeps the first canonical form, the restart reads it as the
   second one, and the client is no longer recognised as the holder.
   */
  lemma PaddedLosesAddress(s: Site, ws: seq<World>, es: seq<Event>, mac: string, diskOk: bool, g: Grant)
    requires s.Ok() && s.leaseFile != "" && Run(s, ws, es)
    requires es == [AllocateFor(mac, true), Crash, Start(true), AllocateFor(mac, diskOk)]
    requires ws[0].mem.Some? && Sound(s, ws[0].mem.value) && KeysSettled(ws[0].mem.value)
    requires PaddedForeignSpelling(mac) && Canon(mac) !in s.statics
    requires Canon(Canon(mac)) !in s.statics && Canon(Canon(mac)) != ""
    requires Acked(s, ws[0], es[0]) == Some(g)
    ensures Offered(s, ws[3], es[3]).Some? ==> Offered(s, ws[3], es[3]).value.ip != g.ip
  {
    CanonIdempotentIff(mac);
    OfferedIsHeld(s, ws[0], es[0]);
    assert Step(s, ws[0], es[0], ws[1]) && Step(s, ws[1], es[1], ws[2]) && Step(s, ws[2], es[2], ws[3]);
    var t, now := ws[1].mem.value, ws[0].clock;
    assert ws[2].file == Holds(Save(t)) && ws[2].clock == now;
    OthersSettled(s, ws[0].mem.value, now, Canon(mac));
    PaddedNotRecognised(s, t, now, ws[3].mem.value, Canon(mac));
    NotRecognisedNotGiven(s, ws[3].mem.value, now, Canon(mac), g.ip);
  }

  lemma OthersSettled(s: Site, t: Tables, now: int, m: string)
    requires s.Ok() && KeysSettled(t)
    ensures forall n | n in Allocate(s, t, now, m).tables.dynamic && n != m :: Canon(n) == n
  {
    if m != "" && m !in s.statics {
      AllocateShape(s, t, now, m);
    }
  }

  /** After the reload the holder's key is gone while its address is still taken, by a live lease. */
  lemma PaddedNotRecognised(s: Site, t: Tables, now: int, u: Tables, m: string)
    requires Sound(s, t) && m in t.dynamic && t.dynamic[m].expires > now && Canon(m) != m
    requires Canon(m) != "" && Canon(m) !in s.statics
    requires forall n | n in t.dynamic && n != m :: Canon(n) == n
    requires Loaded(s, Save(t), now, u)
    ensures Sound(s, u) && m !in u.dynamic && t.dynamic[m].ip in u.byIP
    ensures forall n | n in u.dynamic :: u.dynamic[n].expires > now
  {
    LoadedSound(s, Save(t), now, u);
    KeyIsLost(s, t, now, u, m);
    forall n | n in u.dynamic ensures u.dynamic[n].expires > now {
      LoadedLive(s, Save(t), now, u, n);
    }
    SavedRecord(s, t, m);
    LoadedCovers(s, Save(t), now, u, m);
  }

  lemma KeyIsLost(s: Site, t: Tables, now: int, u: Tables, m: string)
    requires Canon(m) != m && (forall n | n in t.dynamic && n != m :: Canon(n) == n)
    requires Loaded(s, Save(t), now, u)
    ensures m !in u.dynamic
  {
    if m in u.dynamic {
      KeyRereads(s, t, now, u, m);
    }
  }

  /** A key read back from a saved file is the canonical form of a saved key. */
  lemma KeyRereads(s: Site, t: Tables, now: int, u: Tables, n: string)
    requires Loaded(s, Save(t), now, u) && n in u.dynamic
    ensures exists k :: k in t.dynamic && Canon(k) == n
  {
    var k := LoadedUnder(s, Save(t), now, u, n);
    SaveFacts(t);
    assert k in t.dynamic;
  }

  /** Loaded leases are live. */
  lemma LoadedLive(s: Site, f: FileFormat, now: int, u: Tables, n: string)
    requires Loaded(s, f, now, u) && n in u.dynamic
    ensures u.dynamic[n].expires > now
  {
    LoadedFacts(s, f, now, u);
    assert LeaseOrigin(s, f, now, f.leases.Keys, n, u.dynamic[n]);
  }

  lemma NotRecognisedNotGiven(s: Site, u: Tables, now: int, m: string, v: U32)
    requires s.Ok() && Sound(s, u) && m !in u.dynamic && v in u.byIP && m !in s.statics
    requires forall n | n in u.dynamic :: u.dynamic[n].expires > now
    ensures Allocate(s, u, now, m).lease.Success? ==> Allocate(s, u, now, m).lease.value.ip != v
  {
    assert Expired(u, now) == {} && ExpiredIPs(u, now) == {};
    if s.hasPool {
      FirstFreeLeast(Taken(s, Reap(u, now), now), s.poolStart, s.poolEnd);
    }
  }

  // ---------- stale entries ----------

  /**
   What a stale `byIP` entry costs (a file with two spellings of one MAC leaves some): a
   decline evicts only holders of the declined address exactly when no entry is stale.
   */
  lemma DeclineEvictsOnlyHolderIff(s: Site, t: Tables, now: int, mac: string)
    ensures (forall v, m | m in t.dynamic && t.dynamic[m].ip != v :: m in Decline(s, t, now, mac, v).dynamic) <==>
            (forall m, v :: !Stale(t, m, v))
  {
    forall m, v | Stale(t, m, v)
      ensures m in t.dynamic && t.dynamic[m].ip != v && m !in Decline(s, t, now, mac, v).dynamic
    {
    }
    forall v, m | m in t.dynamic && t.dynamic[m].ip != v && m !in Decline(s, t, now, mac, v).dynamic
      ensures Stale(t, m, v)
    {
    }
  }
}
