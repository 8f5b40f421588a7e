/**
 How a server comes to acknowledge one address to two MACs.  The MACs that ask for the first
 time in these runs are texts no table knows; the runs are runs of the allocator, which
 takes any text, and need not fit into DHCP packets.
 */
module LeaseSharing {
  import opened Wrappers
  import opened MacText
  import opened IpText
  import opened LeaseModel
  import opened LeaseInvariants
  import opened LeaseSafety
  import opened LeaseRuns
  import opened LeaseLimits

  // ---------- runs ----------

  /** The events lead from one world to the other. */
  ghost predicate Leads(s: Site, w: World, es: seq<Event>, w': World)
    requires s.Ok()
  {
    exists ws :: Run(s, ws, es) && ws[0] == w && ws[|es|] == w'
  }

  lemma OneStep(s: Site, w: World, e: Event, w': World)
    requires s.Ok() && Step(s, w, e, w')
    ensures Leads(s, w, [e], w')
  {
    assert Run(s, [w, w'], [e]);
  }

  lemma Chained(s: Site, vs: seq<World>, ds: seq<Event>, ws: seq<World>, es: seq<Event>)
    requires s.Ok() && Run(s, vs, ds) && Run(s, ws, es) && vs[|ds|] == ws[0]
    ensures Run(s, vs[..|ds|] + ws, ds + es)
  {
    var all, events := vs[..|ds|] + ws, ds + es;
    forall i | 0 <= i < |events| ensures Step(s, all[i], events[i], all[i + 1]) {
      if i < |ds| {
        assert Step(s, vs[i], ds[i], vs[i + 1]);
      } else {
        assert Step(s, ws[i - |ds|], es[i - |ds|], ws[i - |ds| + 1]);
      }
    }
  }

  lemma Compose(s: Site, a: World, ds: seq<Event>, b: World, es: seq<Event>, c: World)
    requires s.Ok() && Leads(s, a, ds, b) && Leads(s, b, es, c)
    ensures Leads(s, a, ds + es, c)
  {
    var vs :| Run(s, vs, ds) && vs[0] == a && vs[|ds|] == b;
    var ws :| Run(s, ws, es) && ws[0] == b && ws[|es|] == c;
    Chained(s, vs, ds, ws, es);
    var all := vs[..|ds|] + ws;
    assert all[0] == a && all[|ds + es|] == c;
  }

  ghost predicate AllProper(es: seq<Event>) {
    forall e | e in es :: Proper(e)
  }

  ghost predicate NoneVoids(es: seq<Event>, g: Grant) {
    forall e | e in es :: !Voids(e, g)
  }

  /** From this world the server can come to acknowledge an address to two MACs at once. */
  ghost predicate Sharing(s: Site, w: World)
    requires s.Ok()
  {
    exists ws, es, i, j, g, h :: ws != [] && ws[0] == w && Shared(s, ws, es, i, j, g, h)
  }

  /** A request, then events that do not end its grant, then a request of another MAC: put together, a sharing run. */
  lemma Shares(s: Site, a: World, pre: seq<Event>, b: World, e: Event, mid: seq<Event>, c: World, last: Event, d: World,
               g: Grant, h: Grant)
    requires s.Ok() && Leads(s, a, pre, b) && Leads(s, b, [e] + mid, c) && Leads(s, c, [last], d)
    requires AllProper(pre) && AllProper([e] + mid) && Proper(last) && NoneVoids(mid, g)
    requires Acked(s, b, e) == Some(g) && Acked(s, c, last) == Some(h) && c.clock < g.expires
    requires h.ip == g.ip && h.mac != g.mac && h.mac !in s.statics
    ensures Sharing(s, a)
  {
    var us :| Run(s, us, pre) && us[0] == a && us[|pre|] == b;
    var vs :| Run(s, vs, [e] + mid) && vs[0] == b && vs[|mid| + 1] == c;
    var ws :| Run(s, ws, [last]) && ws[0] == c && ws[1] == d;
    Chained(s, vs, [e] + mid, ws, [last]);
    var rest, events := vs[..|mid| + 1] + ws, [e] + mid + [last];
    Chained(s, us, pre, rest, events);
    Placed(s, us, pre, rest, e, mid, last, a, b, c, g, h);
  }

  lemma Placed(s: Site, us: seq<World>, pre: seq<Event>, rest: seq<World>, e: Event, mid: seq<Event>, last: Event,
               a: World, b: World, c: World, g: Grant, h: Grant)
    requires s.Ok() && |us| == |pre| + 1 && us[0] == a && us[|pre|] == b
    requires |rest| == |mid| + 3 && rest[0] == b && rest[|mid| + 1] == c
    requires Run(s, us[..|pre|] + rest, pre + ([e] + mid + [last]))
    requires AllProper(pre) && AllProper([e] + mid) && Proper(last) && NoneVoids(mid, g)
    requires Acked(s, b, e) == Some(g) && Acked(s, c, last) == Some(h) && c.clock < g.expires
    requires h.ip == g.ip && h.mac != g.mac && h.mac !in s.statics
    ensures Sharing(s, a)
  {
    var ws, es, i := us[..|pre|] + rest, pre + ([e] + mid + [last]), |pre|;
    var j := i + |mid| + 1;
    assert ws[0] == a && ws[i] == b && ws[j] == c && es[i] == e && es[j] == last;
    EventsPlaced(pre, e, mid, last, g);
    ShownShared(s, ws, es, i, j, b, e, c, last, g, h);
  }

  lemma EventsPlaced(pre: seq<Event>, e: Event, mid: seq<Event>, last: Event, g: Grant)
    requires AllProper(pre) && AllProper([e] + mid) && Proper(last) && NoneVoids(mid, g)
    ensures var es := pre + ([e] + mid + [last]);
      AllProper(es) && forall k | |pre| < k < |pre| + |mid| + 1 :: !Voids(es[k], g)
  {
    var es, i := pre + ([e] + mid + [last]), |pre|;
    forall d | d in es ensures Proper(d) {
      assert d in pre || d in [e] + mid || d == last;
    }
    forall k | i < k < i + |mid| + 1 ensures !Voids(es[k], g) {
      assert es[k] == mid[k - i - 1] && es[k] in mid;
    }
  }

  function Down(f: FileFormat, now: int): World {
    World(None, Holds(f), now)
  }

  function Up(f: FileFormat, now: int, t: Tables): World {
    World(Some(t), Holds(f), now)
  }

  /** What leads to a sharing world is sharing. */
  lemma SharingAfter(s: Site, a: World, pre: seq<Event>, b: World)
    requires s.Ok() && Leads(s, a, pre, b) && AllProper(pre) && Sharing(s, b)
    ensures Sharing(s, a)
  {
    var us :| Run(s, us, pre) && us[0] == a && us[|pre|] == b;
    var ws, es, i, j, g, h :| ws != [] && ws[0] == b && Shared(s, ws, es, i, j, g, h);
    Chained(s, us, pre, ws, es);
    ShiftedShared(s, us, pre, ws, es, us[..|pre|] + ws, pre + es, i, j, g, h);
  }

  lemma ShiftedShared(s: Site, us: seq<World>, pre: seq<Event>, ws: seq<World>, es: seq<Event>,
                      all: seq<World>, events: seq<Event>, i: nat, j: nat, g: Grant, h: Grant)
    requires s.Ok() && |us| == |pre| + 1 && ws != [] && us[|pre|] == ws[0] && all == us[..|pre|] + ws && events == pre + es
    requires Run(s, all, events) && AllProper(pre) && Shared(s, ws, es, i, j, g, h)
    ensures Sharing(s, us[0])
  {
    Positions(us, pre, ws, es, i);
    Positions(us, pre, ws, es, j);
    EventsShifted(pre, es, i, j, g);
    assert Shared(s, all, events, |pre| + i, |pre| + j, g, h);
  }

  lemma Positions(us: seq<World>, pre: seq<Event>, ws: seq<World>, es: seq<Event>, i: nat)
    requires |us| == |pre| + 1 && |ws| == |es| + 1 && i < |es| && us[|pre|] == ws[0]
    ensures var all, n := us[..|pre|] + ws, |pre|; all[0] == us[0] && all[n + i] == ws[i] && (pre + es)[n + i] == es[i]
  {
  }

  lemma EventsShifted(pre: seq<Event>, es: seq<Event>, i: nat, j: nat, g: Grant)
    requires AllProper(pre) && AllProper(es) && i < j < |es| && forall k | i < k < j :: !Voids(es[k], g)
    ensures AllProper(pre + es) && forall k | |pre| + i < k < |pre| + j :: !Voids((pre + es)[k], g)
  {
    forall d | d in pre + es ensures Proper(d) {
      assert d in pre || d in es;
    }
    forall k | |pre| + i < k < |pre| + j ensures !Voids((pre + es)[k], g) {
      assert (pre + es)[k] == es[k - |pre|];
    }
  }

  lemma ShownShared(s: Site, ws: seq<World>, es: seq<Event>, i: nat, j: nat, b: World, e: Event, c: World, last: Event,
                    g: Grant, h: Grant)
    requires s.Ok() && Run(s, ws, es) && AllProper(es) && i < j < |es|
    requires ws[i] == b && es[i] == e && ws[j] == c && es[j] == last
    requires Acked(s, b, e) == Some(g) && Acked(s, c, last) == Some(h) && c.clock < g.expires
    requires forall k | i < k < j :: !Voids(es[k], g)
    requires h.ip == g.ip && h.mac != g.mac && !(g.mac in s.statics && h.mac in s.statics)
    ensures Sharing(s, ws[0])
  {
    assert Shared(s, ws, es, i, j, g, h);
  }

  /** Requests of MACs not seen before. */
  ghost predicate Newcomer(e: Event, avoid: set<string>) {
    e.AllocateFor? && Proper(e) && Canon(e.mac) !in avoid
  }

  ghost predicate Newcomers(es: seq<Event>, avoid: set<string>) {
    forall e | e in es :: Newcomer(e, avoid)
  }

  // ---------- a free address is handed out in the end ----------

  /** Nobody holds the address and nothing keeps it from being handed out. */
  ghost predicate Open(s: Site, t: Tables, v: U32) {
    s.InPool(v) && v !in s.StaticIPs() && v !in t.byIP && v !in t.declined
  }

  /** The addresses below `v` that the scan finds first. */
  function Below(s: Site, t: Tables, v: U32): set<U32> {
    set u | u in s.Pool() && u < v && u !in t.byIP && u !in t.declined && u !in s.StaticIPs()
  }

  ghost predicate Reaped(t: Tables, now: int) {
    && (forall m | m in t.dynamic :: t.dynamic[m].expires > now)
    && (forall v | v in t.declined :: t.declined[v].expiresAt > now)
  }

  lemma ReapedStays(t: Tables, now: int)
    requires Reaped(t, now)
    ensures Reap(t, now) == t
  {
    assert Expired(t, now) == {} && ExpiredIPs(t, now) == {} && ExpiredDeclines(t, now) == {};
  }

  lemma LoadedIsReaped(s: Site, f: FileFormat, now: int, t: Tables)
    requires Loaded(s, f, now, t)
    ensures Reaped(t, now)
  {
    LoadedFacts(s, f, now, t);
    forall m | m in t.dynamic ensures t.dynamic[m].expires > now {
      LoadedLive(s, f, now, t, m);
    }
    forall v | v in t.declined ensures t.declined[v].expiresAt > now {
      assert DeclineOrigin(s, f, now, f.declined.Keys, v, t.declined[v]);
    }
  }

  /** The address that a newcomer is given while `v` is open: the least open one. */
  lemma NewcomerAddress(s: Site, t: Tables, now: int, v: U32) returns (x: U32)
    requires s.Ok() && Reaped(t, now) && Open(s, t, v)
    ensures FirstFree(Taken(s, t, now), s.poolStart, s.poolEnd) == Some(x) && Open(s, t, x) && x <= v
    ensures x == v || x in Below(s, t, v)
  {
    FirstFreeLeast(Taken(s, t, now), s.poolStart, s.poolEnd);
    assert ExpiredDeclines(t, now) == {};
    assert v !in Taken(s, t, now) && s.poolStart <= v <= s.poolEnd;
    x := FirstFree(Taken(s, t, now), s.poolStart, s.poolEnd).value;
  }

  /** A MAC that no table knows. */
  lemma SomeNewcomer(known: set<string>) returns (mac: string)
    ensures mac !in known && mac != "" && Canon(mac) == mac && !PaddedForeignSpelling(mac)
  {
    var n := LongerThanAll(known);
    ZeroMacProper(n + 1);
    mac := ZeroMac(n + 1);
  }

  /** The world after a newcomer was given address `x`. */
  ghost function Admitted(s: Site, w: World, mac: string, x: U32): World
    requires w.mem.Some?
  {
    Saved(s, w, Bind(s, w.mem.value, mac, x, w.clock + s.leaseTime))
  }

  /** The world after an allocation whose save succeeded. */
  ghost function Saved(s: Site, w: World, t: Tables): World {
    World(Some(t), FileAfterSave(s, w.file, t, true), w.clock)
  }

  lemma Served(s: Site, w: World, mac: string, a: Allocation, w': World)
    requires s.Ok() && w.mem.Some? && Canon(mac) !in s.statics
    requires a == Allocate(s, w.mem.value, w.clock, Canon(mac)) && a.lease.Success? && w' == Saved(s, w, a.tables)
    ensures Leads(s, w, [AllocateFor(mac, true)], w')
    ensures Acked(s, w, AllocateFor(mac, true)) == Some(Grant(Canon(mac), a.lease.value.ip, a.lease.value.expires))
  {
    OneStep(s, w, AllocateFor(mac, true), w');
  }

  /** What a newcomer is given while `v` is open: the least open address. */
  lemma NewcomerAllocated(s: Site, t: Tables, now: int, m: string, v: U32) returns (x: U32)
    requires s.Ok() && Reaped(t, now) && Open(s, t, v) && m != "" && m !in s.statics && m !in t.dynamic
    ensures Open(s, t, x) && (x == v || x in Below(s, t, v))
    ensures var until := now + s.leaseTime;
      Allocate(s, t, now, m) == Allocation(Bind(s, t, m, x, until), Success(s.Dynamic(m, x, until)))
  {
    x := NewcomerAddress(s, t, now, v);
    ReapedStays(t, now);
  }

  lemma AdmittedFacts(s: Site, w: World, mac: string, x: U32, v: U32)
    requires s.Ok() && w.mem.Some? && Reaped(w.mem.value, w.clock) && Open(s, w.mem.value, v) && x in Below(s, w.mem.value, v)
    ensures var t := Admitted(s, w, mac, x).mem.value;
      Reaped(t, w.clock) && Open(s, t, v) && Below(s, t, v) == Below(s, w.mem.value, v) - {x}
  {
  }

  /** While an address is open, newcomers alone bring the server to hand it out, at once. */
  lemma {:induction false} HandedOut(s: Site, w: World, v: U32, avoid: set<string>)
    returns (es: seq<Event>, c: World, last: Event, d: World, h: Grant)
    requires s.Ok() && w.mem.Some? && Reaped(w.mem.value, w.clock) && Open(s, w.mem.value, v)
    ensures Leads(s, w, es, c) && Leads(s, c, [last], d) && Newcomers(es, avoid) && Newcomer(last, avoid)
    ensures Acked(s, c, last) == Some(h) && c.clock == w.clock && h.ip == v && h.mac !in avoid && h.mac !in s.statics
    decreases |Below(s, w.mem.value, v)|
  {
    var mac := SomeNewcomer(avoid + w.mem.value.dynamic.Keys + s.statics.Keys);
    var x := NewcomerAllocated(s, w.mem.value, w.clock, mac, v);
    var e, w' := AllocateFor(mac, true), Admitted(s, w, mac, x);
    Served(s, w, mac, Allocate(s, w.mem.value, w.clock, mac), w');
    if x == v {
      es, c, last, d, h := [], w, e, w', Grant(mac, x, w.clock + s.leaseTime);
      assert Run(s, [w], []);
    } else {
      AdmittedFacts(s, w, mac, x, v);
      es, c, last, d, h := HandedOut(s, w', v, avoid);
      Compose(s, w, [e], w', es, c);
      es := [e] + es;
    }
  }

  // ---------- sharing after a restart ----------

  /** No lease of the tables is for the address, and no live decline. */
  ghost predicate Unclaimed(s: Site, t: Tables, v: U32) {
    s.InPool(v) && v !in s.StaticIPs() && v !in t.declined && forall m | m in t.dynamic :: t.dynamic[m].ip != v
  }

  /** After a restart an unclaimed address is open, whatever stale entry kept it from being handed out before. */
  lemma RestartOpens(s: Site, t: Tables, now: int, u: Tables, v: U32)
    requires Sound(s, t) && Unclaimed(s, t, v) && Loaded(s, Save(t), now, u)
    ensures Open(s, u, v) && Reaped(u, now)
  {
    LoadedIsReaped(s, Save(t), now, u);
    LoadedFacts(s, Save(t), now, u);
    if v in u.byIP {
      assert Origin(s, Save(t), now, Save(t).leases.Keys, u.byIP[v], v);
      var k :| k in Save(t).leases.Keys && Source(s, Save(t), now, k, u.byIP[v], v);
      SavedSource(s, t, now, k, u.byIP[v], v);
    }
    if v in u.declined {
      ReloadedDeclineWasLive(s, t, now, v, u.declined[v]);
    }
  }

  ghost function SomeLoaded(s: Site, f: FileFormat, now: int): Tables
    ensures Loaded(s, f, now, SomeLoaded(s, f, now))
  {
    LoadExists(s, f, now);
    var t :| Loaded(s, f, now, t);
    t
  }

  lemma LoadExists(s: Site, f: FileFormat, now: int)
    ensures exists t :: Loaded(s, f, now, t)
  {
    var order := SomeOrder(f.leases.Keys);
    var t := SomeLoad(s, f, now, order);
  }

  lemma Restarted(s: Site, t: Tables, now: int, u: Tables)
    requires s.Ok() && s.leaseFile != "" && Loaded(s, Save(t), now, u)
    ensures Leads(s, Up(Save(t), now, t), [Crash, Start(true)], Up(Save(t), now, u))
  {
    OneStep(s, Up(Save(t), now, t), Crash, Down(Save(t), now));
    StartLoads(s, Save(t), now, u);
    Compose(s, Up(Save(t), now, t), [Crash], Down(Save(t), now), [Start(true)], Up(Save(t), now, u));
    assert [Crash] + [Start(true)] == [Crash, Start(true)];
  }

  /**
   A run that acknowledged `g` and left its address unclaimed in a saved file can go on to
   acknowledge that address to another MAC: crash, restart, newcomers.
   */
  lemma RestartShares(s: Site, a: World, pre: seq<Event>, b: World, e: Event, post: seq<Event>, t: Tables, now: int, g: Grant)
    requires s.Ok() && s.leaseFile != "" && Leads(s, a, pre, b) && Leads(s, b, [e] + post, Up(Save(t), now, t))
    requires AllProper(pre) && AllProper([e] + post) && NoneVoids(post, g) && Acked(s, b, e) == Some(g)
    requires Sound(s, t) && Unclaimed(s, t, g.ip) && now < g.expires
    ensures Sharing(s, a)
  {
    var news, c, last, d, h := AfterRestart(s, t, now, g.ip, {g.mac});
    var restart := [Crash, Start(true)];
    Compose(s, b, [e] + post, Up(Save(t), now, t), restart + news, c);
    assert [e] + post + (restart + news) == [e] + (post + restart + news);
    Harmless(e, post, restart, news, g);
    Shares(s, a, pre, b, e, post + restart + news, c, last, d, g, h);
  }

  /** A restart from a saved file, and newcomers until the address is handed out. */
  lemma AfterRestart(s: Site, t: Tables, now: int, v: U32, avoid: set<string>)
    returns (news: seq<Event>, c: World, last: Event, d: World, h: Grant)
    requires s.Ok() && s.leaseFile != "" && Sound(s, t) && Unclaimed(s, t, v)
    ensures Leads(s, Up(Save(t), now, t), [Crash, Start(true)] + news, c) && Leads(s, c, [last], d)
    ensures Newcomers(news, avoid) && Newcomer(last, avoid)
    ensures Acked(s, c, last) == Some(h) && c.clock == now && h.ip == v && h.mac !in avoid && h.mac !in s.statics
  {
    var u := SomeLoaded(s, Save(t), now);
    RestartOpens(s, t, now, u, v);
    news, c, last, d, h := HandedOut(s, Up(Save(t), now, u), v, avoid);
    Restarted(s, t, now, u);
    Compose(s, Up(Save(t), now, t), [Crash, Start(true)], Up(Save(t), now, u), news, c);
  }

  lemma Harmless(e: Event, post: seq<Event>, restart: seq<Event>, news: seq<Event>, g: Grant)
    requires AllProper([e] + post) && NoneVoids(post, g) && restart == [Crash, Start(true)] && Newcomers(news, {g.mac})
    ensures AllProper([e] + (post + restart + news)) && NoneVoids(post + restart + news, g)
  {
    forall d | d in post + restart + news ensures d in post || d in restart || d in news {
    }
    assert Proper(e) by { assert e in [e] + post; }
    forall d | d in post ensures Proper(d) {
      assert d in [e] + post;
    }
  }

  // ---------- steps of a server with a lease file ----------

  lemma StartLoads(s: Site, f: FileFormat, now: int, t: Tables)
    requires s.Ok() && s.leaseFile != "" && Loaded(s, f, now, t)
    ensures Leads(s, Down(f, now), [Start(true)], Up(f, now, t))
  {
    OneStep(s, Down(f, now), Start(true), Up(f, now, t));
  }

  function Renewed(t: Tables, m: string, expires: int): Tables
    requires m in t.dynamic
  {
    t.(dynamic := t.dynamic[m := t.dynamic[m].(expires := expires)])
  }

  lemma AllocationLeads(s: Site, f: FileFormat, now: int, t: Tables, m: string, r: Tables, l: Lease)
    requires s.Ok() && s.leaseFile != "" && Canon(m) == m && m !in s.statics
    requires Allocate(s, t, now, m) == Allocation(r, Success(l))
    ensures Leads(s, Up(f, now, t), [AllocateFor(m, true)], Up(Save(r), now, r))
  {
    Served(s, Up(f, now, t), m, Allocation(r, Success(l)), Up(Save(r), now, r));
  }

  lemma AllocationAcks(s: Site, f: FileFormat, now: int, t: Tables, m: string, r: Tables, l: Lease)
    requires s.Ok() && Canon(m) == m && m !in s.statics && Allocate(s, t, now, m) == Allocation(r, Success(l))
    ensures Acked(s, Up(f, now, t), AllocateFor(m, true)) == Some(Grant(m, l.ip, l.expires))
  {
  }

  lemma RenewalAllocation(s: Site, t: Tables, now: int, m: string, r: Tables, l: Lease)
    requires s.Ok() && Reaped(t, now) && m in t.dynamic && m != "" && m !in s.statics
    requires r == Renewed(t, m, now + s.leaseTime) && l == t.dynamic[m].(expires := now + s.leaseTime)
    ensures Allocate(s, t, now, m) == Allocation(r, Success(l))
  {
    ReapedStays(t, now);
  }

  lemma DeclineServed(s: Site, f: FileFormat, now: int, t: Tables, v: U32, u: Tables)
    requires s.Ok() && s.leaseFile != "" && u == Decline(s, t, now, Canon(""), v)
    ensures Leads(s, Up(f, now, t), [DeclineBy("", Some(v), true)], Up(Save(u), now, u))
  {
    OneStep(s, Up(f, now, t), DeclineBy("", Some(v), true), Up(Save(u), now, u));
  }

  lemma Waited(s: Site, w: World, until: int)
    requires s.Ok() && w.clock <= until
    ensures Leads(s, w, [Wait(until)], w.(clock := until))
  {
    OneStep(s, w, Wait(until), w.(clock := until));
  }

  lemma Released(s: Site, f: FileFormat, now: int, t: Tables, text: string)
    requires s.Ok() && s.leaseFile != "" && Releases(t, Canon(text), None)
    ensures var u := Release(t, Canon(text), None);
      Leads(s, Up(f, now, t), [ReleaseBy(text, None, true)], Up(Save(u), now, u))
  {
    var u := Release(t, Canon(text), None);
    OneStep(s, Up(f, now, t), ReleaseBy(text, None, true), Up(Save(u), now, u));
  }

  /** An allocation reaps first. */
  lemma AllocateReaps(s: Site, t: Tables, now: int, m: string)
    requires s.Ok() && m != "" && m !in s.statics
    ensures Allocate(s, t, now, m) == Allocate(s, Reap(t, now), now, m)
  {
    ReapTwice(t, now);
  }

  lemma ReapIsReaped(t: Tables, now: int)
    ensures Reaped(Reap(t, now), now)
  {
  }
}
