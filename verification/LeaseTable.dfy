/**
 The allocator as one table.  At every moment the four maps together say of each pool
 address whether it is free, leased, declined or static, and every operation, a failed
 save, a crash and a restart act on that table in the obvious way.
 */
module LeaseTable {
  import opened Wrappers
  import opened MacText
  import opened IpText
  import opened LeaseModel
  import opened LeaseInvariants
  import opened LeaseRuns
  import opened LeaseStructure

  datatype Cell = Free | Leased(mac: string, until: int) | Declined(mac: string, until: int) | Static

  type Table = map<U32, Cell>

  // ---------- the table machine ----------

  predicate Holds(T: Table, m: string, v: U32) {
    v in T && T[v].Leased? && T[v].mac == m
  }

  /** The address an allocation for `m` must give: the one it holds, else the least free one. */
  ghost predicate Due(T: Table, m: string, v: U32) {
    || Holds(T, m, v)
    || (v in T && T[v].Free? && (forall u :: !Holds(T, m, u)) && forall u | u in T && u < v :: !T[u].Free?)
  }

  function Aged(c: Cell, now: int): Cell {
    if (c.Leased? || c.Declined?) && c.until <= now then Free else c
  }

  ghost function Age(T: Table, now: int): (r: Table)
    ensures r.Keys == T.Keys && forall v | v in T :: r[v] == Aged(T[v], now)
  {
    Tabulate(T.Keys, v requires v in T => Aged(T[v], now))
  }

  ghost function Blank(T: Table): (r: Table)
    ensures r.Keys == T.Keys && forall v | v in T :: r[v] == if T[v].Static? then Static else Free
  {
    Tabulate(T.Keys, v requires v in T => if T[v].Static? then Static else Free)
  }

  /** A restart reads the MAC of a decline through `canon`. */
  ghost function Reloaded(T: Table): (r: Table)
    ensures r.Keys == T.Keys && forall v | v in T :: r[v] == Canonical(T[v])
  {
    Tabulate(T.Keys, v requires v in T => Canonical(T[v]))
  }

  function Canonical(c: Cell): Cell {
    if c.Declined? then Declined(Canon(c.mac), c.until) else c
  }

  function Mark(T: Table, v: U32, c: Cell): Table {
    if v in T && !T[v].Static? then T[v := c] else T
  }

  /** Table in memory (none while the server is down), table a restart would find, clock. */
  datatype Machine = Machine(mem: Option<Table>, disk: Table, clock: int)

  /** An operation whose save may fail leaves memory changed and the disk either equal to it or as it was. */
  ghost predicate Commits(s: Site, a: Machine, a': Machine, T: Table, diskOk: bool) {
    a'.clock == a.clock && a'.mem == Some(T) && a'.disk == if s.leaseFile != "" && diskOk then T else a.disk
  }

  /** The due address is leased for a full term and handed out; when none is due nothing changes and none is. */
  ghost predicate Allocates(s: Site, a: Machine, a': Machine, m: string, diskOk: bool, given: Option<Lease>)
    requires a.mem.Some?
  {
    match given
    case None => (forall v :: !Due(a.mem.value, m, v)) && a' == a
    case Some(l) =>
      var until := a.clock + s.leaseTime;
      && Due(a.mem.value, m, l.ip) && l == Lease(m, l.ip, s.gateway, s.dns, "", until, false)
      && Commits(s, a, a', a.mem.value[l.ip := Leased(m, until)], diskOk)
  }

  /** The lease that the table shows for a MAC, if any. */
  ghost predicate Shows(s: Site, T: Table, m: string, given: Option<Lease>) {
    match given
    case None => forall v :: !Holds(T, m, v)
    case Some(l) => Holds(T, m, l.ip) && l == Lease(m, l.ip, s.gateway, s.dns, "", T[l.ip].until, false)
  }

  /** A step of the machine, with the lease that the caller is given. */
  ghost predicate TableStep(s: Site, a: Machine, e: Event, a': Machine, given: Option<Lease>) {
    match e
    case Wait(until) =>
      && until >= a.clock && a'.clock == until && given == None
      && a'.mem == (if a.mem.Some? then Some(Age(a.mem.value, until)) else None) && a'.disk == Age(a.disk, until)
    case AllocateFor(mac, diskOk) =>
      && a.mem.Some?
      && if Canon(mac) == "" then a' == a && given == None
         else if Canon(mac) in s.statics then a' == a && given == Some(s.statics[Canon(mac)].(expires := a.clock + s.leaseTime))
         else Allocates(s, a, a', Canon(mac), diskOk, given)
    case LookUp(mac) =>
      && a.mem.Some? && a' == a
      && if Canon(mac) in s.statics then given == Some(s.statics[Canon(mac)]) else Shows(s, a.mem.value, Canon(mac), given)
    case _ => given == None && SilentStep(s, a, e, a')
  }

  /** The steps that hand out nothing. */
  ghost predicate SilentStep(s: Site, a: Machine, e: Event, a': Machine) {
    match e
    case ReleaseBy(mac, ip, diskOk) =>
      && a.mem.Some?
      && if forall v :: !(Holds(a.mem.value, Canon(mac), v) && (ip.None? || ip.value == v))
         // giving up a lease that has run out changes no cell, but still saves
         then a' == a || Commits(s, a, a', a.mem.value, diskOk)
         else exists v :: Holds(a.mem.value, Canon(mac), v) && (ip.None? || ip.value == v)
                && Commits(s, a, a', Mark(a.mem.value, v, Free), diskOk)
    case DeclineBy(mac, ip, diskOk) =>
      && a.mem.Some?
      && if ip.None? then a' == a
         else Commits(s, a, a', Mark(a.mem.value, ip.value, Declined(Canon(mac), a.clock + s.leaseTime)), diskOk)
    case ClearAll(diskOk) => a.mem.Some? && Commits(s, a, a', Blank(a.mem.value), diskOk)
    case ClearFile(diskOk) =>
      a' == a.(disk := if s.leaseFile != "" && diskOk then Blank(a.disk) else a.disk)
    case Crash => a' == a.(mem := None)
    case Start(readable) =>
      && a.mem.None?
      && if s.leaseFile == "" then a' == a.(mem := Some(Blank(a.disk)))
         else if !readable then a' == a
         else a' == a.(mem := Some(Reloaded(a.disk)))
    case _ => false
  }

  // ---------- what the four maps represent ----------

  function CellAt(s: Site, t: Tables, now: int, v: U32): Cell {
    if v in s.StaticIPs() then Static
    else if v in t.byIP && t.byIP[v] in t.dynamic && t.dynamic[t.byIP[v]].expires > now
    then Leased(t.byIP[v], t.dynamic[t.byIP[v]].expires)
    else if v in t.declined && t.declined[v].expiresAt > now
    then Declined(t.declined[v].mac, t.declined[v].expiresAt)
    else Free
  }

  ghost function ViewOn(s: Site, t: Tables, now: int, vs: set<U32>): Table {
    if vs == {} then map[]
    else
      var v :| v in vs;
      ViewOn(s, t, now, vs - {v})[v := CellAt(s, t, now, v)]
  }

  /** The table over the pool; ViewFacts says what it holds. */
  ghost function View(s: Site, t: Tables, now: int): Table {
    ViewOn(s, t, now, s.Pool())
  }

  lemma {:induction false} ViewOnFacts(s: Site, t: Tables, now: int, vs: set<U32>)
    ensures var T := ViewOn(s, t, now, vs); T.Keys == vs && forall v | v in T :: T[v] == CellAt(s, t, now, v)
  {
    if vs != {} {
      var v :| v in vs && ViewOn(s, t, now, vs) == ViewOn(s, t, now, vs - {v})[v := CellAt(s, t, now, v)];
      ViewOnFacts(s, t, now, vs - {v});
    }
  }

  lemma ViewFacts(s: Site, t: Tables, now: int)
    ensures var T := View(s, t, now); T.Keys == s.Pool() && forall v | v in T :: T[v] == CellAt(s, t, now, v)
  {
    ViewOnFacts(s, t, now, s.Pool());
  }

  lemma SameView(s: Site, t: Tables, u: Tables, now: int)
    requires forall v | v in s.Pool() :: CellAt(s, t, now, v) == CellAt(s, u, now, v)
    ensures View(s, t, now) == View(s, u, now)
  {
    ViewFacts(s, t, now);
    ViewFacts(s, u, now);
    SameMap(View(s, t, now), View(s, u, now));
  }

  /** Time passing ages the table; it needs no reaping for that. */
  lemma ViewAges(s: Site, t: Tables, now: int, later: int)
    requires Consistent(s, t) && now <= later
    ensures View(s, t, later) == Age(View(s, t, now), later)
  {
    forall v | v in s.Pool() ensures CellAt(s, t, later, v) == Aged(CellAt(s, t, now, v), later) {
    }
    ViewFacts(s, t, now);
    ViewFacts(s, t, later);
    SameMap(View(s, t, later), Age(View(s, t, now), later));
  }

  /** Reaping changes no cell. */
  lemma ReapKeepsView(s: Site, t: Tables, now: int)
    requires Consistent(s, t)
    ensures View(s, Reap(t, now), now) == View(s, t, now)
  {
    var r := Reap(t, now);
    ReapKeeps(s, t, now);
    forall v | v in s.Pool() ensures CellAt(s, r, now, v) == CellAt(s, t, now, v) {
      if v in t.byIP && v !in r.byIP {
        var m :| m in Expired(t, now) && t.dynamic[m].ip == v;
        assert t.byIP[v] == m;
      }
    }
    SameView(s, r, t, now);
  }

  // ---------- each operation on the table ----------

  lemma BindView(s: Site, r: Tables, now: int, m: string, v: U32, expires: int)
    requires Consistent(s, r) && m !in r.dynamic && Unused(s, r, v) && expires > now
    ensures View(s, Bind(s, r, m, v, expires), now) == View(s, r, now)[v := Leased(m, expires)]
  {
    var u := Bind(s, r, m, v, expires);
    forall w | w in s.Pool() ensures CellAt(s, u, now, w) == if w == v then Leased(m, expires) else CellAt(s, r, now, w) {
      BoundCell(s, r, now, m, v, expires, w);
    }
    OneCellView(s, r, u, now, v, Leased(m, expires));
  }

  lemma BoundCell(s: Site, r: Tables, now: int, m: string, v: U32, expires: int, w: U32)
    requires Consistent(s, r) && m !in r.dynamic && Unused(s, r, v) && expires > now
    ensures CellAt(s, Bind(s, r, m, v, expires), now, w) == if w == v then Leased(m, expires) else CellAt(s, r, now, w)
  {
    assert w in r.byIP ==> r.byIP[w] in r.dynamic;
  }

  /** Tables that differ in one pool cell have views that differ in it. */
  lemma OneCellView(s: Site, t: Tables, u: Tables, now: int, v: U32, c: Cell)
    requires v in s.Pool() && forall w | w in s.Pool() :: CellAt(s, u, now, w) == if w == v then c else CellAt(s, t, now, w)
    ensures View(s, u, now) == View(s, t, now)[v := c]
  {
    ViewFacts(s, t, now);
    ViewFacts(s, u, now);
    SameMap(View(s, u, now), View(s, t, now)[v := c]);
  }

  lemma RenewView(s: Site, r: Tables, u: Tables, now: int, m: string, l: Lease)
    requires Consistent(s, r) && m in r.dynamic && l == r.dynamic[m].(expires := l.expires) && l.expires > now
    requires u == r.(dynamic := r.dynamic[m := l])
    ensures View(s, u, now) == View(s, r, now)[l.ip := Leased(m, l.expires)]
  {
    forall w | w in s.Pool() ensures CellAt(s, u, now, w) == if w == l.ip then Leased(m, l.expires) else CellAt(s, r, now, w) {
      RenewedCell(s, r, u, now, m, l, w);
    }
    OneCellView(s, r, u, now, l.ip, Leased(m, l.expires));
  }

  lemma RenewedCell(s: Site, r: Tables, u: Tables, now: int, m: string, l: Lease, w: U32)
    requires Consistent(s, r) && m in r.dynamic && l == r.dynamic[m].(expires := l.expires) && l.expires > now
    requires u == r.(dynamic := r.dynamic[m := l])
    ensures CellAt(s, u, now, w) == if w == l.ip then Leased(m, l.expires) else CellAt(s, r, now, w)
  {
    assert w in r.byIP ==> r.dynamic[r.byIP[w]].ip == w;
  }

  /** Who holds what: a live lease and a leased cell are the same thing. */
  lemma HoldsIff(s: Site, t: Tables, now: int, m: string, v: U32)
    requires Consistent(s, t)
    ensures Holds(View(s, t, now), m, v) <==> m in t.dynamic && t.dynamic[m].ip == v && t.dynamic[m].expires > now
    ensures Holds(View(s, t, now), m, v) ==> View(s, t, now)[v].until == t.dynamic[m].expires
  {
    ViewFacts(s, t, now);
  }

  lemma FreeIff(s: Site, r: Tables, now: int, v: U32)
    requires Consistent(s, r) && Reap(r, now) == r && v in s.Pool()
    ensures v in View(s, r, now) && (View(s, r, now)[v] == Free <==> v !in Taken(s, r, now))
  {
    ViewFacts(s, r, now);
    ReapedIsLive(r, now);
  }

  lemma ReapedIsLive(r: Tables, now: int)
    requires Reap(r, now) == r
    ensures forall m | m in r.dynamic :: r.dynamic[m].expires > now
    ensures forall v | v in r.declined :: r.declined[v].expiresAt > now
  {
    assert forall m | m in r.dynamic :: m in Reap(r, now).dynamic;
    assert forall v | v in r.declined :: v in Reap(r, now).declined;
  }

  /** What an allocation of `m` does to the table: it leases the due address for a full term, or changes nothing. */
  ghost predicate GivesDue(s: Site, T: Table, T': Table, m: string, until: int, given: Option<Lease>) {
    match given
    case None => (forall v :: !Due(T, m, v)) && T' == T
    case Some(l) => Due(T, m, l.ip) && l == s.Dynamic(m, l.ip, until) && T' == T[l.ip := Leased(m, until)]
  }

  /** The lease an allocation hands out. */
  function GivenBy(a: Allocation): Option<Lease> {
    if a.lease.Success? then Some(a.lease.value) else None
  }

  /** The tables and the answer are those of an allocation without static binding. */
  predicate AllocatesTo(s: Site, t: Tables, now: int, m: string, u: Tables, given: Option<Lease>)
    requires s.Ok()
  {
    var a := AllocateDynamic(s, t, now, m);
    a.tables == u && GivenBy(a) == given
  }

  lemma AllocateView(s: Site, t: Tables, now: int, m: string, u: Tables, given: Option<Lease>)
    requires s.Ok() && Consistent(s, t) && m !in s.statics && AllocatesTo(s, t, now, m, u, given)
    ensures GivesDue(s, View(s, t, now), View(s, u, now), m, now + s.leaseTime, given)
  {
    var r := Reap(t, now);
    ReapKeeps(s, t, now);
    ReapKeepsView(s, t, now);
    ReapTwice(t, now);
    AllocationCases(s, t, now, m, u, given);
    AllocateReapedView(s, r, now, m, u, given);
  }

  /** What an allocation makes of reaped tables: the renewal or the scan. */
  predicate ReapedTo(s: Site, r: Tables, now: int, m: string, u: Tables, given: Option<Lease>)
    requires s.Ok()
  {
    if m in r.dynamic then
      var l := r.dynamic[m].(expires := now + s.leaseTime);
      u == r.(dynamic := r.dynamic[m := l]) && given == Some(l)
    else
      var a := AllocateFresh(s, r, now, m);
      a.tables == u && GivenBy(a) == given
  }

  lemma AllocationCases(s: Site, t: Tables, now: int, m: string, u: Tables, given: Option<Lease>)
    requires s.Ok() && AllocatesTo(s, t, now, m, u, given)
    ensures ReapedTo(s, Reap(t, now), now, m, u, given)
  {
  }

  lemma AllocateReapedView(s: Site, r: Tables, now: int, m: string, u: Tables, given: Option<Lease>)
    requires s.Ok() && Consistent(s, r) && Reap(r, now) == r && m !in s.statics && ReapedTo(s, r, now, m, u, given)
    ensures GivesDue(s, View(s, r, now), View(s, u, now), m, now + s.leaseTime, given)
  {
    if m in r.dynamic {
      RenewalGivesDue(s, r, u, now, m, given.value);
    } else {
      FreshCases(s, r, now, m, u, given);
      FreshGivesDue(s, r, now, m, u, given);
    }
  }

  lemma RenewalGivesDue(s: Site, r: Tables, u: Tables, now: int, m: string, l: Lease)
    requires Consistent(s, r) && Reap(r, now) == r && m in r.dynamic
    requires l == r.dynamic[m].(expires := l.expires) && l.expires > now && u == r.(dynamic := r.dynamic[m := l])
    ensures GivesDue(s, View(s, r, now), View(s, u, now), m, l.expires, Some(l))
  {
    RenewView(s, r, u, now, m, l);
    HolderIsDue(s, r, now, m);
    RenewedLease(s, r, m, l);
    Gives(s, View(s, r, now), View(s, u, now), m, l.expires, l);
  }

  lemma RenewedLease(s: Site, r: Tables, m: string, l: Lease)
    requires Sound(s, r) && m in r.dynamic && l == r.dynamic[m].(expires := l.expires)
    ensures l == s.Dynamic(m, l.ip, l.expires)
  {
  }

  lemma HolderIsDue(s: Site, r: Tables, now: int, m: string)
    requires Consistent(s, r) && Reap(r, now) == r && m in r.dynamic
    ensures Due(View(s, r, now), m, r.dynamic[m].ip)
  {
    ReapedIsLive(r, now);
    HoldsIff(s, r, now, m, r.dynamic[m].ip);
  }

  /** The scan binds the address it finds, or finds none and changes nothing. */
  predicate ScannedTo(s: Site, r: Tables, now: int, m: string, u: Tables, given: Option<Lease>) {
    match given
    case None => u == r && (s.hasPool && s.poolStart <= s.poolEnd ==> FirstFree(Taken(s, r, now), s.poolStart, s.poolEnd).None?)
    case Some(l) =>
      && s.hasPool && s.poolStart <= s.poolEnd && FirstFree(Taken(s, r, now), s.poolStart, s.poolEnd) == Some(l.ip)
      && l == s.Dynamic(m, l.ip, now + s.leaseTime) && u == Bind(s, r, m, l.ip, now + s.leaseTime)
  }

  lemma FreshCases(s: Site, r: Tables, now: int, m: string, u: Tables, given: Option<Lease>)
    requires s.Ok() && m !in r.dynamic && ReapedTo(s, r, now, m, u, given)
    ensures ScannedTo(s, r, now, m, u, given)
  {
  }

  lemma FreshGivesDue(s: Site, r: Tables, now: int, m: string, u: Tables, given: Option<Lease>)
    requires s.Ok() && Consistent(s, r) && Reap(r, now) == r && m !in r.dynamic && m !in s.statics
    requires ScannedTo(s, r, now, m, u, given)
    ensures GivesDue(s, View(s, r, now), View(s, u, now), m, now + s.leaseTime, given)
  {
    if given.Some? {
      FreshIsDue(s, r, now, m, given.value.ip);
      FreshIsUnused(s, r, now, given.value.ip);
      BoundGivesDue(s, r, u, now, m, given.value);
    } else {
      NoneIsDue(s, r, now, m);
    }
  }

  lemma BoundGivesDue(s: Site, r: Tables, u: Tables, now: int, m: string, l: Lease)
    requires Consistent(s, r) && m !in r.dynamic && Unused(s, r, l.ip) && l.expires > now
    requires Due(View(s, r, now), m, l.ip) && l == s.Dynamic(m, l.ip, l.expires) && u == Bind(s, r, m, l.ip, l.expires)
    ensures GivesDue(s, View(s, r, now), View(s, u, now), m, l.expires, Some(l))
  {
    BindView(s, r, now, m, l.ip, l.expires);
    Gives(s, View(s, r, now), View(s, u, now), m, l.expires, l);
  }

  lemma Gives(s: Site, T: Table, T': Table, m: string, until: int, l: Lease)
    requires Due(T, m, l.ip) && l == s.Dynamic(m, l.ip, until) && T' == T[l.ip := Leased(m, until)]
    ensures GivesDue(s, T, T', m, until, Some(l))
  {
  }

  lemma FreshIsUnused(s: Site, r: Tables, now: int, v: U32)
    requires s.Ok() && Reap(r, now) == r && s.hasPool
    requires FirstFree(Taken(s, r, now), s.poolStart, s.poolEnd) == Some(v)
    ensures Unused(s, r, v)
  {
    ReapedIsLive(r, now);
    FreshAddress(s, r, now);
  }

  lemma FreshIsDue(s: Site, r: Tables, now: int, m: string, v: U32)
    requires s.Ok() && Consistent(s, r) && Reap(r, now) == r && m !in r.dynamic && s.hasPool
    requires FirstFree(Taken(s, r, now), s.poolStart, s.poolEnd) == Some(v)
    ensures Due(View(s, r, now), m, v)
  {
    var T := View(s, r, now);
    ViewFacts(s, r, now);
    FirstFreeLeast(Taken(s, r, now), s.poolStart, s.poolEnd);
    forall u: U32 ensures !Holds(T, m, u) {
      HoldsIff(s, r, now, m, u);
    }
    forall u | u in s.Pool() ensures T[u].Free? <==> u !in Taken(s, r, now) {
      FreeIff(s, r, now, u);
    }
  }

  lemma NoneIsDue(s: Site, r: Tables, now: int, m: string)
    requires s.Ok() && Consistent(s, r) && Reap(r, now) == r && m !in r.dynamic
    requires s.hasPool ==> FirstFree(Taken(s, r, now), s.poolStart, s.poolEnd) == None
    ensures forall v :: !Due(View(s, r, now), m, v)
  {
    var T := View(s, r, now);
    ViewFacts(s, r, now);
    if s.hasPool { FirstFreeLeast(Taken(s, r, now), s.poolStart, s.poolEnd); }
    forall u: U32 ensures !Holds(T, m, u) {
      HoldsIff(s, r, now, m, u);
    }
    forall u | u in s.Pool() ensures !T[u].Free? {
      FreeIff(s, r, now, u);
    }
  }

  lemma ReleasedCell(s: Site, t: Tables, now: int, m: string, ip: Option<U32>, w: U32)
    requires Consistent(s, t) && Releases(t, m, ip) && w in s.Pool()
    ensures CellAt(s, Release(t, m, ip), now, w) == if w == t.dynamic[m].ip then Free else CellAt(s, t, now, w)
  {
    assert w in t.byIP ==> t.dynamic[t.byIP[w]].ip == w;
  }

  /** `Release` frees the address its caller holds, if any. */
  lemma ReleaseView(s: Site, t: Tables, now: int, m: string, ip: Option<U32>)
    requires Consistent(s, t)
    ensures var T, T' := View(s, t, now), View(s, Release(t, m, ip), now);
      if m in t.dynamic && t.dynamic[m].expires > now && (ip.None? || ip.value == t.dynamic[m].ip)
      then Releases(t, m, ip) && T' == Mark(T, t.dynamic[m].ip, Free)
      else T' == T
  {
    if Releases(t, m, ip) {
      var v := t.dynamic[m].ip;
      forall w | w in s.Pool() ensures CellAt(s, Release(t, m, ip), now, w) == if w == v then Free else CellAt(s, t, now, w) {
        ReleasedCell(s, t, now, m, ip, w);
      }
      if t.dynamic[m].expires <= now {
        assert CellAt(s, t, now, v) == Free;
        SameView(s, Release(t, m, ip), t, now);
      } else {
        assert v in s.Pool();
        ViewFacts(s, t, now);
        OneCellView(s, t, Release(t, m, ip), now, v, Free);
      }
    }
  }

  /** `Decline` takes a pool address that is not static out of the pool for a full term. */
  lemma DeclineView(s: Site, t: Tables, now: int, m: string, v: U32)
    requires s.Ok() && Consistent(s, t)
    ensures View(s, Decline(s, t, now, m, v), now) == Mark(View(s, t, now), v, Declined(m, now + s.leaseTime))
  {
    var u := Decline(s, t, now, m, v);
    forall w | w in s.Pool()
      ensures CellAt(s, u, now, w) ==
              if w == v && v !in s.StaticIPs() then Declined(m, now + s.leaseTime) else CellAt(s, t, now, w)
    {
      DeclinedCell(s, t, now, m, v, w);
    }
    ViewFacts(s, t, now);
    if v in s.Pool() && v !in s.StaticIPs() {
      OneCellView(s, t, u, now, v, Declined(m, now + s.leaseTime));
    } else {
      SameView(s, u, t, now);
    }
  }

  lemma DeclinedCell(s: Site, t: Tables, now: int, m: string, v: U32, w: U32)
    requires s.Ok() && Consistent(s, t) && w in s.Pool()
    ensures CellAt(s, Decline(s, t, now, m, v), now, w) ==
            if w == v && v !in s.StaticIPs() then Declined(m, now + s.leaseTime) else CellAt(s, t, now, w)
  {
    assert w in t.byIP ==> t.dynamic[t.byIP[w]].ip == w;
    assert v in t.byIP ==> t.dynamic[t.byIP[v]].ip == v;
  }

  /** `Lookup` answers from the table although it never reaps. */
  lemma LookupView(s: Site, t: Tables, now: int, m: string, v: U32)
    requires Consistent(s, t) && m !in s.statics
    ensures var T, l := View(s, t, now), Lookup(s, t, now, m);
      && (Holds(T, m, v) <==> l.Some? && l.value.ip == v)
      && (l.Some? ==> Holds(T, m, l.value.ip) && T[l.value.ip].until == l.value.expires)
  {
    HoldsIff(s, t, now, m, v);
    if m in t.dynamic { HoldsIff(s, t, now, m, t.dynamic[m].ip); }
  }

  lemma ClearedView(s: Site, t: Tables, now: int)
    ensures View(s, NO_LEASES, now) == Blank(View(s, t, now))
  {
    ViewFacts(s, t, now);
    ViewFacts(s, NO_LEASES, now);
    SameMap(View(s, NO_LEASES, now), Blank(View(s, t, now)));
  }

  lemma CanonicalCell(s: Site, r: Tables, now: int, v: U32)
    requires Reap(r, now) == r
    ensures CellAt(s, r.(declined := Reread(r.declined)), now, v) == Canonical(CellAt(s, r, now, v))
  {
  }

  lemma ReloadedView(s: Site, t: Tables, now: int, u: Tables)
    requires Consistent(s, t) && u == Reap(t, now).(declined := Reread(Reap(t, now).declined))
    ensures View(s, u, now) == Reloaded(View(s, t, now))
  {
    var r := Reap(t, now);
    ReapKeepsView(s, t, now);
    ReapTwice(t, now);
    forall v | v in s.Pool() ensures CellAt(s, u, now, v) == Canonical(CellAt(s, r, now, v)) {
      CanonicalCell(s, r, now, v);
    }
    ViewFacts(s, u, now);
    ViewFacts(s, r, now);
    SameMap(View(s, u, now), Reloaded(View(s, r, now)));
  }

  // ---------- refinement ----------

  /** `saved` is what the file was written from; before any write it is empty. */
  ghost predicate Matches(s: Site, file: Content, saved: Tables) {
    && Consistent(s, saved) && KeysSettled(saved)
    && ((file.Absent? && saved == NO_LEASES) || file == LeaseModel.Content.Holds(Save(saved)))
  }

  /** The machine that represents a world whose file was written from `saved`. */
  ghost function MachineOf(s: Site, w: World, saved: Tables): Machine {
    Machine(if w.mem.Some? then Some(View(s, w.mem.value, w.clock)) else None, View(s, saved, w.clock), w.clock)
  }

  ghost function SavedAfter(s: Site, w: World, e: Event, w': World, saved: Tables): Tables
    requires s.Ok()
  {
    if !Writes(s, w, e) then saved
    else if w'.mem.Some? && !e.ClearFile? then w'.mem.value else NO_LEASES
  }

  lemma WrittenFile(s: Site, w: World, e: Event, w': World, saved: Tables)
    requires s.Ok() && Step(s, w, e, w')
    ensures w'.file == if Writes(s, w, e) then LeaseModel.Content.Holds(Save(SavedAfter(s, w, e, w', saved))) else w.file
    ensures var t := SavedAfter(s, w, e, w', saved); t == saved || t == NO_LEASES || w'.mem == Some(t)
  {
  }

  lemma StepKeepsMatch(s: Site, w: World, e: Event, w': World, saved: Tables)
    requires s.Ok() && Step(s, w, e, w') && Structured(s, w) && Proper(e) && Matches(s, w.file, saved)
    ensures Matches(s, w'.file, SavedAfter(s, w, e, w', saved))
  {
    WrittenFile(s, w, e, w', saved);
    var t := SavedAfter(s, w, e, w', saved);
    assert Consistent(s, NO_LEASES) && KeysSettled(NO_LEASES);
    if w'.mem.Some? { StepKeepsConsistent(s, w, e, w'); }
    assert Consistent(s, t) && KeysSettled(t);
  }

  /** A change of memory that was saved, or whose save failed, commits. */
  lemma Committed(s: Site, w: World, w': World, diskOk: bool, saved: Tables, saved': Tables)
    requires w'.mem.Some? && w'.clock == w.clock
    requires saved' == if s.leaseFile != "" && diskOk then w'.mem.value else saved
    ensures Commits(s, MachineOf(s, w, saved), MachineOf(s, w', saved'), View(s, w'.mem.value, w.clock), diskOk)
  {
  }

  lemma WaitRefines(s: Site, w: World, e: Event, w': World, saved: Tables)
    requires s.Ok() && Step(s, w, e, w') && Structured(s, w) && Consistent(s, saved) && e.Wait?
    ensures TableStep(s, MachineOf(s, w, saved), e, MachineOf(s, w', saved), None)
  {
    if w.mem.Some? { ViewAges(s, w.mem.value, w.clock, w'.clock); }
    ViewAges(s, saved, w.clock, w'.clock);
  }

  lemma AllocateRefines(s: Site, w: World, e: Event, w': World, saved: Tables)
    requires s.Ok() && Step(s, w, e, w') && Structured(s, w) && e.AllocateFor?
    ensures TableStep(s, MachineOf(s, w, saved), e, MachineOf(s, w', SavedAfter(s, w, e, w', saved)), Answer(s, w, e))
  {
    if Canon(e.mac) == "" || Canon(e.mac) in s.statics {
      AllocateSkips(s, w, e, w', saved);
    } else {
      AllocateStep(s, w, e, w', saved);
      AllocateView(s, w.mem.value, w.clock, Canon(e.mac), w'.mem.value, Answer(s, w, e));
      MachinesAllocate(s, w, e, w', saved, SavedAfter(s, w, e, w', saved), Answer(s, w, e));
    }
  }

  lemma AllocateSkips(s: Site, w: World, e: Event, w': World, saved: Tables)
    requires s.Ok() && Step(s, w, e, w') && e.AllocateFor? && (Canon(e.mac) == "" || Canon(e.mac) in s.statics)
    ensures TableStep(s, MachineOf(s, w, saved), e, MachineOf(s, w', SavedAfter(s, w, e, w', saved)), Answer(s, w, e))
  {
    assert w' == w && SavedAfter(s, w, e, w', saved) == saved;
  }

  /** What the step of an allocation is and what it leaves in the file. */
  lemma AllocateStep(s: Site, w: World, e: Event, w': World, saved: Tables)
    requires s.Ok() && Step(s, w, e, w') && e.AllocateFor? && Canon(e.mac) != "" && Canon(e.mac) !in s.statics
    ensures w.mem.Some? && w'.mem.Some? && w'.clock == w.clock
    ensures AllocatesTo(s, w.mem.value, w.clock, Canon(e.mac), w'.mem.value, Answer(s, w, e))
    ensures SavedAfter(s, w, e, w', saved) ==
            if Answer(s, w, e).Some? && s.leaseFile != "" && e.diskOk then w'.mem.value else saved
  {
  }

  lemma MachinesAllocate(s: Site, w: World, e: Event, w': World, saved: Tables, saved': Tables, given: Option<Lease>)
    requires e.AllocateFor? && Canon(e.mac) != "" && Canon(e.mac) !in s.statics
    requires w.mem.Some? && w'.mem.Some? && w'.clock == w.clock
    requires saved' == if given.Some? && s.leaseFile != "" && e.diskOk then w'.mem.value else saved
    requires GivesDue(s, View(s, w.mem.value, w.clock), View(s, w'.mem.value, w.clock), Canon(e.mac),
                      w.clock + s.leaseTime, given)
    ensures TableStep(s, MachineOf(s, w, saved), e, MachineOf(s, w', saved'), given)
  {
    AllocatingStep(s, e, w.clock, View(s, w.mem.value, w.clock), View(s, w'.mem.value, w.clock),
                   View(s, saved, w.clock), View(s, saved', w.clock), given);
  }

  lemma AllocatingStep(s: Site, e: Event, clock: int, T: Table, T': Table, D: Table, D': Table, given: Option<Lease>)
    requires e.AllocateFor? && Canon(e.mac) != "" && Canon(e.mac) !in s.statics
    requires GivesDue(s, T, T', Canon(e.mac), clock + s.leaseTime, given)
    requires D' == if given.Some? && s.leaseFile != "" && e.diskOk then T' else D
    ensures TableStep(s, Machine(Some(T), D, clock), e, Machine(Some(T'), D', clock), given)
  {
  }

  lemma LookUpRefines(s: Site, w: World, e: Event, w': World, saved: Tables)
    requires s.Ok() && Step(s, w, e, w') && Structured(s, w) && e.LookUp?
    ensures TableStep(s, MachineOf(s, w, saved), e, MachineOf(s, w', saved), Answer(s, w, e))
  {
    if Canon(e.mac) !in s.statics {
      LookupShows(s, w.mem.value, w.clock, Canon(e.mac));
    }
  }

  lemma LookupShows(s: Site, t: Tables, now: int, m: string)
    requires Consistent(s, t) && m !in s.statics
    ensures Shows(s, View(s, t, now), m, Lookup(s, t, now, m))
  {
    var T, l := View(s, t, now), Lookup(s, t, now, m);
    forall v: U32 ensures Holds(T, m, v) <==> l.Some? && l.value.ip == v {
      LookupView(s, t, now, m, v);
    }
    if l.Some? {
      LookupView(s, t, now, m, l.value.ip);
      RenewedLease(s, t, m, l.value);
    }
  }

  lemma ReleaseRefines(s: Site, w: World, e: Event, w': World, saved: Tables)
    requires s.Ok() && Step(s, w, e, w') && Structured(s, w) && e.ReleaseBy?
    ensures TableStep(s, MachineOf(s, w, saved), e, MachineOf(s, w', SavedAfter(s, w, e, w', saved)), None)
  {
    var t, m := w.mem.value, Canon(e.mac);
    var T := View(s, t, w.clock);
    ReleaseView(s, t, w.clock, m, e.ip);
    forall v: U32 ensures Holds(T, m, v) <==> m in t.dynamic && t.dynamic[m].ip == v && t.dynamic[m].expires > w.clock {
      HoldsIff(s, t, w.clock, m, v);
    }
    if Releases(t, m, e.ip) {
      Committed(s, w, w', e.diskOk, saved, SavedAfter(s, w, e, w', saved));
    }
    if m in t.dynamic && t.dynamic[m].expires > w.clock && (e.ip.None? || e.ip.value == t.dynamic[m].ip) {
      assert Holds(T, m, t.dynamic[m].ip);
    }
  }

  lemma DeclineRefines(s: Site, w: World, e: Event, w': World, saved: Tables)
    requires s.Ok() && Step(s, w, e, w') && Structured(s, w) && e.DeclineBy?
    ensures TableStep(s, MachineOf(s, w, saved), e, MachineOf(s, w', SavedAfter(s, w, e, w', saved)), None)
  {
    DeclineStep(s, w, e, w', saved);
    if e.ip.Some? {
      DeclineView(s, w.mem.value, w.clock, Canon(e.mac), e.ip.value);
      MachinesDecline(s, w, e, w', saved, SavedAfter(s, w, e, w', saved));
    }
  }

  lemma MachinesDecline(s: Site, w: World, e: Event, w': World, saved: Tables, saved': Tables)
    requires e.DeclineBy? && e.ip.Some? && w.mem.Some? && w'.mem.Some? && w'.clock == w.clock
    requires saved' == if s.leaseFile != "" && e.diskOk then w'.mem.value else saved
    requires View(s, w'.mem.value, w.clock) ==
             Mark(View(s, w.mem.value, w.clock), e.ip.value, Declined(Canon(e.mac), w.clock + s.leaseTime))
    ensures TableStep(s, MachineOf(s, w, saved), e, MachineOf(s, w', saved'), None)
  {
    DecliningStep(s, e, w.clock, View(s, w.mem.value, w.clock), View(s, saved, w.clock), View(s, saved', w.clock));
  }

  lemma DeclineStep(s: Site, w: World, e: Event, w': World, saved: Tables)
    requires s.Ok() && Step(s, w, e, w') && e.DeclineBy?
    ensures w.mem.Some? && w'.clock == w.clock
    ensures var saved' := SavedAfter(s, w, e, w', saved);
      if e.ip.None? then w' == w && saved' == saved else
      && w'.mem == Some(Decline(s, w.mem.value, w.clock, Canon(e.mac), e.ip.value))
      && saved' == if s.leaseFile != "" && e.diskOk then w'.mem.value else saved
  {
  }

  lemma DecliningStep(s: Site, e: Event, clock: int, T: Table, D: Table, D': Table)
    requires e.DeclineBy? && e.ip.Some?
    requires D' == if s.leaseFile != "" && e.diskOk then Mark(T, e.ip.value, Declined(Canon(e.mac), clock + s.leaseTime)) else D
    ensures TableStep(s, Machine(Some(T), D, clock), e,
                      Machine(Some(Mark(T, e.ip.value, Declined(Canon(e.mac), clock + s.leaseTime))), D', clock), None)
  {
  }

  lemma ClearRefines(s: Site, w: World, e: Event, w': World, saved: Tables)
    requires s.Ok() && Step(s, w, e, w') && (e.ClearAll? || e.ClearFile?)
    ensures TableStep(s, MachineOf(s, w, saved), e, MachineOf(s, w', SavedAfter(s, w, e, w', saved)), None)
  {
    ClearedView(s, saved, w.clock);
    if e.ClearAll? {
      ClearedView(s, w.mem.value, w.clock);
      Committed(s, w, w', e.diskOk, saved, SavedAfter(s, w, e, w', saved));
    }
  }

  lemma StartRefines(s: Site, w: World, e: Event, w': World, saved: Tables)
    requires s.Ok() && Step(s, w, e, w') && Matches(s, w.file, saved) && e.Start?
    ensures TableStep(s, MachineOf(s, w, saved), e, MachineOf(s, w', saved), None)
  {
    ClearedView(s, saved, w.clock);
    if w'.mem.Some? && s.leaseFile != "" {
      if w.file.Holds? {
        LoadedIsReread(s, saved, w.clock, w'.mem.value);
        ReloadedView(s, saved, w.clock, w'.mem.value);
      } else {
        BlankReloaded(View(s, saved, w.clock));
      }
    }
  }

  lemma BlankReloaded(T: Table)
    requires T == Blank(T)
    ensures Reloaded(T) == T
  {
    forall v | v in T ensures Reloaded(T)[v] == T[v] {
      assert T[v] == Blank(T)[v];
    }
    SameMap(Reloaded(T), T);
  }

  /**
   Refinement: every step of the allocator, its file and its restarts is a step of the
   machine with one table in memory and one on disk, and gives its caller what that step gives.
   */
  lemma StepRefines(s: Site, w: World, e: Event, w': World, saved: Tables)
    requires s.Ok() && Step(s, w, e, w') && Structured(s, w) && Proper(e) && Matches(s, w.file, saved)
    ensures TableStep(s, MachineOf(s, w, saved), e, MachineOf(s, w', SavedAfter(s, w, e, w', saved)), Answer(s, w, e))
  {
    match e
    case Wait(_) => WaitRefines(s, w, e, w', saved);
    case AllocateFor(_, _) => AllocateRefines(s, w, e, w', saved);
    case LookUp(_) => LookUpRefines(s, w, e, w', saved);
    case ReleaseBy(_, _, _) => ReleaseRefines(s, w, e, w', saved);
    case DeclineBy(_, _, _) => DeclineRefines(s, w, e, w', saved);
    case ClearAll(_) => ClearRefines(s, w, e, w', saved);
    case ClearFile(_) => ClearRefines(s, w, e, w', saved);
    case Start(_) => StartRefines(s, w, e, w', saved);
    case _ =>
  }

  /** A machine in a state that represents the world. */
  ghost predicate Represents(s: Site, w: World, a: Machine) {
    exists saved :: Matches(s, w.file, saved) && a == MachineOf(s, w, saved)
  }

  lemma FirstMachine(s: Site, w: World) returns (a: Machine)
    requires Structured(s, w)
    ensures Represents(s, w, a)
  {
    var saved := NO_LEASES;
    if w.file.Holds? {
      saved :| Consistent(s, saved) && KeysSettled(saved) && w.file.f == Save(saved);
    }
    assert Matches(s, w.file, saved);
    a := MachineOf(s, w, saved);
  }

  lemma NextMachine(s: Site, w: World, e: Event, w': World, a: Machine) returns (a': Machine)
    requires s.Ok() && Step(s, w, e, w') && Structured(s, w) && Proper(e) && Represents(s, w, a)
    ensures TableStep(s, a, e, a', Answer(s, w, e)) && Represents(s, w', a')
  {
    var saved :| Matches(s, w.file, saved) && a == MachineOf(s, w, saved);
    StepKeepsMatch(s, w, e, w', saved);
    StepRefines(s, w, e, w', saved);
    a' := MachineOf(s, w', SavedAfter(s, w, e, w', saved));
  }

  /** The machines match the first worlds of the run, step by step. */
  ghost predicate Simulates(s: Site, ws: seq<World>, es: seq<Event>, machines: seq<Machine>) {
    && s.Ok() && 0 < |machines| <= |ws| <= |es| + 1
    && (forall i | 0 <= i < |machines| :: Represents(s, ws[i], machines[i]))
    && (forall i {:trigger es[i]} | 0 <= i < |machines| - 1 ::
        TableStep(s, machines[i], es[i], machines[i + 1], Answer(s, ws[i], es[i])))
  }

  lemma SimulatesMore(s: Site, ws: seq<World>, es: seq<Event>, machines: seq<Machine>, a: Machine)
    requires Simulates(s, ws, es, machines) && |machines| < |ws|
    requires TableStep(s, machines[|machines| - 1], es[|machines| - 1], a,
                       Answer(s, ws[|machines| - 1], es[|machines| - 1]))
    requires Represents(s, ws[|machines|], a)
    ensures Simulates(s, ws, es, machines + [a])
  {
  }

  /**
   Whole runs: from no file or a self-written one, every run of the allocator is matched
   step by step by a run of the table machine that gives every caller the same answer.
   */
  lemma {:induction false} RunRefines(s: Site, ws: seq<World>, es: seq<Event>, n: nat) returns (machines: seq<Machine>)
    requires s.Ok() && Run(s, ws, es) && n < |ws|
    requires Structured(s, ws[0]) && forall e | e in es :: Proper(e)
    ensures |machines| == n + 1 && Simulates(s, ws, es, machines)
    decreases n
  {
    if n == 0 {
      var a := FirstMachine(s, ws[0]);
      machines := [a];
    } else {
      var before := RunRefines(s, ws, es, n - 1);
      StructuralInvariant(s, ws, es, n - 1);
      assert Step(s, ws[n - 1], es[n - 1], ws[n]) && es[n - 1] in es;
      var a := NextMachine(s, ws[n - 1], es[n - 1], ws[n], before[n - 1]);
      SimulatesMore(s, ws, es, before, a);
      machines := before + [a];
    }
  }
}
