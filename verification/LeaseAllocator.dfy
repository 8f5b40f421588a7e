/**
 The allocator as the server runs it: an object whose four maps the operations
 update in place, with a lease file on a disk that may refuse a write.  A map is
 visited in arbitrary order.  Each method holds the mutex throughout, so it is one
 atomic step; the clock reading is its parameter `now`.
 */
module LeaseAllocator {
  import opened Wrappers
  import opened MacText
  import opened IpText
  import opened Ip6Text
  import opened LeaseModel
  import opened LeaseInvariants

  datatype StaticEntry = StaticEntry(mac: string, ip: U32, gateway: Option<U32>, dns: seq<U32>, hostname: string)

  datatype Config = Config(leaseFile: string, gateway: Option<U32>, dns: seq<U32>, leaseTime: int,
                           statics: seq<StaticEntry>, poolStart: Option<U32>, poolEnd: Option<U32>)

  class Disk {
    var content: Content

    constructor (content: Content)
      ensures this.content == content
    {
      this.content := content;
    }
  }

  function StaticLease(c: Config, e: StaticEntry): Lease {
    Lease(Lower(e.mac), e.ip, if e.gateway.None? then c.gateway else e.gateway,
          if e.dns == [] then c.dns else e.dns, e.hostname, 0, true)
  }

  /** The table of the first `n` configured bindings; a later binding of the same MAC replaces an earlier one. */
  function StaticTable(c: Config, n: nat): map<string, Lease>
    requires n <= |c.statics|
  {
    if n == 0 then map[]
    else StaticTable(c, n - 1)[Lower(c.statics[n - 1].mac) := StaticLease(c, c.statics[n - 1])]
  }

  /** The key of binding `i` in the table. */
  function Key(c: Config, i: int): string
    requires 0 <= i < |c.statics|
  {
    Lower(c.statics[i].mac)
  }

  ghost predicate HasKey(c: Config, n: nat, m: string)
    requires n <= |c.statics|
  {
    exists i :: 0 <= i < n && Key(c, i) == m
  }

  /** Of the first `n` bindings none after this one has its key, so it counts. */
  ghost predicate Counts(c: Config, n: nat, i: int)
    requires n <= |c.statics|
  {
    0 <= i < n && forall j | i < j < n :: Key(c, j) != Key(c, i)
  }

  /** What binding `e` configures: its own gateway and name servers, else those of the server. */
  predicate Configures(c: Config, e: StaticEntry, l: Lease) {
    && l.mac == Lower(e.mac) && l.ip == e.ip && l.hostname == e.hostname && l.isStatic
    && (if e.gateway.Some? then l.gateway == e.gateway else l.gateway == c.gateway)
    && (if e.dns != [] then l.dns == e.dns else l.dns == c.dns)
  }

  /** The table holds the bindings: their lower-case MACs are its keys, and the last binding of a key counts. */
  ghost predicate Configured(c: Config, table: map<string, Lease>) {
    var n := |c.statics|;
    && (forall m :: m in table <==> HasKey(c, n, m))
    && (forall i | Counts(c, n, i) :: Key(c, i) in table && Configures(c, c.statics[i], table[Key(c, i)]))
  }

  lemma {:induction false} TableKeys(c: Config, n: nat, m: string)
    requires n <= |c.statics|
    ensures m in StaticTable(c, n) <==> HasKey(c, n, m)
  {
    if n > 0 {
      TableKeys(c, n - 1, m);
      assert HasKey(c, n, m) <==> HasKey(c, n - 1, m) || Key(c, n - 1) == m;
    }
  }

  lemma {:induction false} TableEntry(c: Config, n: nat, i: int)
    requires n <= |c.statics| && Counts(c, n, i)
    ensures Key(c, i) in StaticTable(c, n) && Configures(c, c.statics[i], StaticTable(c, n)[Key(c, i)])
  {
    if i < n - 1 {
      assert Key(c, n - 1) != Key(c, i) && Counts(c, n - 1, i);
      TableEntry(c, n - 1, i);
    }
  }

  lemma TableIsConfigured(c: Config)
    ensures Configured(c, StaticTable(c, |c.statics|))
  {
    forall m ensures m in StaticTable(c, |c.statics|) <==> HasKey(c, |c.statics|, m) {
      TableKeys(c, |c.statics|, m);
    }
    forall i | Counts(c, |c.statics|, i)
      ensures Key(c, i) in StaticTable(c, |c.statics|)
      ensures Configures(c, c.statics[i], StaticTable(c, |c.statics|)[Key(c, i)])
    {
      TableEntry(c, |c.statics|, i);
    }
  }

  /** What stays fixed while the server runs is what is configured; there is a pool when both its ends are. */
  ghost predicate ConfiguredSite(c: Config, s: Site) {
    && s.leaseFile == c.leaseFile && s.gateway == c.gateway && s.dns == c.dns && s.leaseTime == c.leaseTime
    && Configured(c, s.statics)
    && (s.hasPool <==> c.poolStart.Some? && c.poolEnd.Some?)
    && (s.hasPool ==> s.poolStart == c.poolStart.value && s.poolEnd == c.poolEnd.value)
  }

  lemma SiteIsConfigured(c: Config)
    ensures ConfiguredSite(c, SiteOf(c))
  {
    TableIsConfigured(c);
  }

  function SiteOf(c: Config): Site {
    var hasPool := c.poolStart.Some? && c.poolEnd.Some?;
    Site(c.leaseFile, c.gateway, c.dns, c.leaseTime, StaticTable(c, |c.statics|), hasPool,
         if hasPool then c.poolStart.value else 0, if hasPool then c.poolEnd.value else 0)
  }

  class Allocator {
    const site: Site
    const disk: Disk
    var staticLeases: map<string, Lease>
    var dynamic: map<string, Lease>
    var byIP: map<U32, string>
    var declined: map<U32, Quarantine>

    /** Static bindings only ever change their expiry. */
    ghost predicate Valid()
      reads this
    {
      && site.Ok()
      && staticLeases.Keys == site.statics.Keys
      && forall m | m in staticLeases :: staticLeases[m] == site.statics[m].(expires := staticLeases[m].expires)
    }

    function Tables(): LeaseModel.Tables
      reads this
    {
      LeaseModel.Tables(dynamic, byIP, declined)
    }

    constructor (c: Config, disk: Disk)
      ensures site == SiteOf(c) && this.disk == disk
      ensures staticLeases == site.statics && Tables() == NO_LEASES
      ensures ConfiguredSite(c, site) && Configured(c, staticLeases)
    {
      this.disk := disk;
      this.site := SiteOf(c);
      this.dynamic, this.byIP, this.declined := map[], map[], map[];
      var table: map<string, Lease> := map[];
      for i := 0 to |c.statics|
        invariant table == StaticTable(c, i)
      {
        var e := c.statics[i];
        var mac := Lower(e.mac);
        var gw := e.gateway;
        if gw.None? { gw := c.gateway; }
        var dns := e.dns;
        if |dns| == 0 { dns := c.dns; }
        table := table[mac := Lease(mac, e.ip, gw, dns, e.hostname, 0, true)];
      }
      this.staticLeases := table;
      SiteIsConfigured(c);
    }

    /** `NewAllocator`: a reversed pool, an unreadable file and a file that does not decode are errors. */
    static method New(c: Config, disk: Disk, now: int, readable: bool) returns (r: Result<Allocator, Error>)
      requires c.leaseTime > 0
      ensures r == Failure(PoolReversed) <==> c.poolStart.Some? && c.poolEnd.Some? && c.poolStart.value > c.poolEnd.value
      ensures r.Failure? && r.error != PoolReversed <==>
              SiteOf(c).Ok() && c.leaseFile != "" && (!readable || disk.content == Garbled)
      ensures r.Success? ==> fresh(r.value) && r.value.site == SiteOf(c) && r.value.disk == disk && r.value.Valid()
      ensures r.Success? ==> ConfiguredSite(c, r.value.site) && Configured(c, r.value.staticLeases)
      ensures r.Success? ==>
        if c.leaseFile == "" || disk.content == Absent then r.value.Tables() == NO_LEASES
        else disk.content.Holds? && Loaded(SiteOf(c), disk.content.f, now, r.value.Tables())
    {
      var a := new Allocator(c, disk);
      if c.poolStart.Some? && c.poolEnd.Some? && a.site.poolStart > a.site.poolEnd {
        return Failure(PoolReversed);
      }
      var err := a.Load(now, readable);
      if err.Some? {
        return Failure(err.value);
      }
      return Success(a);
    }

    /** `reapExpiredLocked`. */
    method ReapExpired(now: int)
      modifies this`dynamic, this`byIP, this`declined
      ensures Tables() == Reap(old(Tables()), now)
    {
      ReapLeases(now);
      ReapDeclines(now);
    }

    /** The loop over the leases. */
    method ReapLeases(now: int)
      modifies this`dynamic, this`byIP
      ensures Tables() == Reap(old(Tables()), now).(declined := declined)
    {
      ghost var t := Tables();
      var macs := dynamic.Keys;
      while macs != {}
        invariant macs <= dynamic.Keys
        invariant forall m :: m in dynamic <==> m in t.dynamic && (m in macs || t.dynamic[m].expires > now)
        invariant forall m | m in dynamic :: dynamic[m] == t.dynamic[m]
        invariant forall v :: v in byIP <==>
                    v in t.byIP && forall m | m in Expired(t, now) && m !in macs :: t.dynamic[m].ip != v
        invariant forall v | v in byIP :: byIP[v] == t.byIP[v]
      {
        var mac :| mac in macs;
        macs := macs - {mac};
        var l := dynamic[mac];
        if l.expires <= now {
          byIP := byIP - {l.ip};
          dynamic := dynamic - {mac};
        }
      }
      assert dynamic == t.dynamic - Expired(t, now);
      assert byIP == t.byIP - ExpiredIPs(t, now);
    }

    /** The loop over the declines. */
    method ReapDeclines(now: int)
      modifies this`declined
      ensures declined == old(declined) - ExpiredDeclines(old(Tables()), now)
    {
      ghost var t := Tables();
      var ips := declined.Keys;
      while ips != {}
        invariant ips <= declined.Keys
        invariant forall v :: v in declined <==> v in t.declined && (v in ips || t.declined[v].expiresAt > now)
        invariant forall v | v in declined :: declined[v] == t.declined[v]
      {
        var ip :| ip in ips;
        ips := ips - {ip};
        if declined[ip].expiresAt <= now {
          declined := declined - {ip};
        }
      }
      assert declined == t.declined - ExpiredDeclines(t, now);
    }

    /** `staticIPSetLocked`. */
    method StaticIPSet() returns (ips: set<U32>)
      requires Valid()
      ensures ips == site.StaticIPs()
    {
      ips := {};
      var macs := staticLeases.Keys;
      while macs != {}
        invariant macs <= staticLeases.Keys
        invariant ips == set m | m in staticLeases && m !in macs :: staticLeases[m].ip
      {
        var mac :| mac in macs;
        macs := macs - {mac};
        ips := ips + {staticLeases[mac].ip};
      }
      assert forall m | m in staticLeases :: staticLeases[m].ip == site.statics[m].ip;
    }

    /** The first loop of `saveLocked`. */
    method LeaseRecords() returns (leases: map<string, LeaseRecord>)
      ensures leases == Save(Tables()).leases
    {
      leases := map[];
      var macs := dynamic.Keys;
      while macs != {}
        invariant macs <= dynamic.Keys
        invariant leases.Keys == dynamic.Keys - macs
        invariant forall m | m in leases :: leases[m] == LeaseRecord(IpString(dynamic[m].ip), dynamic[m].expires)
      {
        var mac :| mac in macs;
        macs := macs - {mac};
        leases := leases[mac := LeaseRecord(IpString(dynamic[mac].ip), dynamic[mac].expires)];
      }
      SaveFacts(Tables());
      SameMap(leases, Save(Tables()).leases);
    }

    /** The second loop: distinct addresses have distinct texts, so no record overwrites another. */
    method DeclinedRecords() returns (records: map<string, DeclinedRecord>)
      ensures records == Save(Tables()).declined
    {
      records := map[];
      var ips := declined.Keys;
      IpTexts();
      while ips != {}
        invariant ips <= declined.Keys
        invariant forall k :: k in records <==>
                    ParseDotted(k).Some? && ParseDotted(k).value in declined && ParseDotted(k).value !in ips
        invariant forall k | k in records :: var d := declined[ParseDotted(k).value];
                    records[k] == DeclinedRecord(d.mac, d.expiresAt)
      {
        var v :| v in ips;
        ips := ips - {v};
        records := records[IpString(v) := DeclinedRecord(declined[v].mac, declined[v].expiresAt)];
      }
      SaveFacts(Tables());
      SameMap(records, Save(Tables()).declined);
    }

    /** The file of version 1 with one record for each lease and each decline, and no other. */
    ghost predicate Records(f: FileFormat)
      reads this
    {
      && f.version == 1 && f.leases.Keys == dynamic.Keys
      && (forall m | m in dynamic :: f.leases[m] == LeaseRecord(IpString(dynamic[m].ip), dynamic[m].expires))
      && (forall v: U32 | v in declined ::
           IpString(v) in f.declined && f.declined[IpString(v)] == DeclinedRecord(declined[v].mac, declined[v].expiresAt))
      && (forall k | k in f.declined :: exists v: U32 :: v in declined && k == IpString(v))
    }

    lemma SavedRecords()
      ensures Records(Save(Tables()))
    {
      SaveFacts(Tables());
      IpTexts();
      forall k | k in Save(Tables()).declined ensures exists v: U32 :: v in declined && k == IpString(v) {
        assert k == IpString(ParseDotted(k).value);
      }
    }

    /** `saveLocked` and `writeFile`. */
    method SaveLocked(diskOk: bool) returns (err: Option<Error>)
      modifies disk
      ensures disk.content == FileAfterSave(site, old(disk.content), Tables(), diskOk)
      ensures if site.leaseFile != "" && diskOk then disk.content.Holds? && Records(disk.content.f)
              else disk.content == old(disk.content)
      ensures err == SaveError(site, diskOk)
    {
      SavedRecords();
      if site.leaseFile == "" {
        return None;
      }
      var leases := LeaseRecords();
      var records := DeclinedRecords();
      if !diskOk {
        return Some(SaveFailed);
      }
      disk.content := Holds(FileFormat(CURRENT_VERSION, leases, records));
      return None;
    }

    /** `Allocate`. */
    method Allocate(mac: string, now: int, diskOk: bool) returns (lease: Option<Lease>, err: Option<Error>)
      requires Valid()
      modifies this`staticLeases, this`dynamic, this`byIP, this`declined, disk
      ensures Valid()
      ensures var m := Canon(mac); var a := LeaseModel.Allocate(site, old(Tables()), now, m);
        && Tables() == a.tables
        && lease == (if a.lease.Success? then Some(a.lease.value) else None)
        && err == (if a.lease.Failure? then Some(a.lease.error)
                   else if m in site.statics then None else SaveError(site, diskOk))
        && disk.content == (if a.lease.Success? && m !in site.statics
                            then FileAfterSave(site, old(disk.content), a.tables, diskOk) else old(disk.content))
        && forall k | k in staticLeases && !(k == m && m != "") :: staticLeases[k] == old(staticLeases)[k]
      ensures Sound(site, old(Tables())) && lease.Some? ==> Terms(site, lease.value, Canon(mac), now + site.leaseTime)
    {
      LeaseTerms(site, Tables(), now, Canon(mac));
      var m := Canon(mac);
      if m == "" {
        return None, Some(EmptyMac);
      }
      if m in staticLeases {
        staticLeases := staticLeases[m := staticLeases[m].(expires := now + site.leaseTime)];
        return Some(staticLeases[m]), None;
      }
      lease, err := AllocateDynamic(m, now, diskOk);
    }

    /** The rest of `Allocate`, for a MAC without static binding. */
    method AllocateDynamic(m: string, now: int, diskOk: bool) returns (lease: Option<Lease>, err: Option<Error>)
      requires Valid()
      modifies this`dynamic, this`byIP, this`declined, disk
      ensures var a := LeaseModel.AllocateDynamic(site, old(Tables()), now, m);
        && Tables() == a.tables
        && lease == (if a.lease.Success? then Some(a.lease.value) else None)
        && err == (if a.lease.Failure? then Some(a.lease.error) else SaveError(site, diskOk))
        && disk.content == (if a.lease.Success? then FileAfterSave(site, old(disk.content), a.tables, diskOk)
                            else old(disk.content))
    {
      ReapExpired(now);
      if m in dynamic {
        dynamic := dynamic[m := dynamic[m].(expires := now + site.leaseTime)];
        err := SaveLocked(diskOk);
        return Some(dynamic[m]), err;
      }
      if !site.hasPool {
        return None, Some(NoPool);
      }
      var staticIPs := StaticIPSet();
      var free := ScanPool(staticIPs, now);
      if free.None? {
        return None, Some(PoolExhausted);
      }
      var l := Lease(m, free.value, site.gateway, site.dns, "", now + site.leaseTime, false);
      dynamic := dynamic[m := l];
      byIP := byIP[free.value := m];
      err := SaveLocked(diskOk);
      return Some(l), err;
    }

    /** The scan of `Allocate`, with its 32-bit increment and its stop at the last address. */
    method ScanPool(staticIPs: set<U32>, now: int) returns (free: Option<U32>)
      requires site.Ok() && site.hasPool && staticIPs == site.StaticIPs()
      ensures free == FirstFree(Taken(site, Tables(), now), site.poolStart, site.poolEnd)
    {
      var v := site.poolStart;
      ghost var taken := Taken(site, Tables(), now);
      while true
        invariant site.poolStart <= v <= site.poolEnd
        invariant FirstFree(taken, site.poolStart, site.poolEnd) == FirstFree(taken, v, site.poolEnd)
        decreases site.poolEnd - v
      {
        if v in byIP {
          if v == site.poolEnd { break; }
          v := Increment(v);
          continue;
        }
        if v in staticIPs {
          if v == site.poolEnd { break; }
          v := Increment(v);
          continue;
        }
        if v in declined && declined[v].expiresAt > now {
          if v == site.poolEnd { break; }
          v := Increment(v);
          continue;
        }
        return Some(v);
      }
      return None;
    }

    /** `Lookup`. */
    method Lookup(mac: string, now: int) returns (lease: Option<Lease>)
      requires Valid()
      ensures var m := Canon(mac);
        if m in site.statics then lease == Some(site.statics[m].(expires := staticLeases[m].expires))
        else lease == LeaseModel.Lookup(site, Tables(), now, m)
    {
      var m := Canon(mac);
      if m in staticLeases {
        return Some(staticLeases[m]);
      }
      if m in dynamic && dynamic[m].expires > now {
        return Some(dynamic[m]);
      }
      return None;
    }

    /** `Release`; `ip` is what `To4` makes of the client's address. */
    method Release(mac: string, ip: Option<U32>, diskOk: bool) returns (err: Option<Error>)
      modifies this`dynamic, this`byIP, disk
      ensures var m := Canon(mac); var t := old(Tables());
        && Tables() == LeaseModel.Release(t, m, ip)
        && err == (if m == "" then Some(EmptyMac) else if Releases(t, m, ip) then SaveError(site, diskOk) else None)
        && disk.content == (if Releases(t, m, ip) then FileAfterSave(site, old(disk.content), Tables(), diskOk)
                            else old(disk.content))
    {
      var m := Canon(mac);
      if m == "" {
        return Some(EmptyMac);
      }
      if m !in dynamic {
        return None;
      }
      var l := dynamic[m];
      if ip.Some? && l.ip != ip.value {
        return None;
      }
      byIP := byIP - {l.ip};
      dynamic := dynamic - {m};
      err := SaveLocked(diskOk);
    }

    /** `Decline`. */
    method Decline(mac: string, ip: Option<U32>, now: int, diskOk: bool) returns (err: Option<Error>)
      requires Valid()
      modifies this`dynamic, this`byIP, this`declined, disk
      ensures Valid()
      ensures ip.None? ==> err == Some(InvalidDeclinedIp) && Tables() == old(Tables()) && disk.content == old(disk.content)
      ensures ip.Some? ==>
        && Tables() == LeaseModel.Decline(site, old(Tables()), now, Canon(mac), ip.value)
        && err == SaveError(site, diskOk)
        && disk.content == FileAfterSave(site, old(disk.content), Tables(), diskOk)
    {
      var m := Canon(mac);
      if ip.None? {
        return Some(InvalidDeclinedIp);
      }
      var v := ip.value;
      if v in byIP {
        dynamic := dynamic - {byIP[v]};
        byIP := byIP - {v};
      }
      var staticIPs := StaticIPSet();
      if v !in staticIPs && site.InPool(v) {
        declined := declined[v := Quarantine(m, now + site.leaseTime)];
      }
      err := SaveLocked(diskOk);
    }

    /** `ClearDynamic`. */
    method ClearDynamic(diskOk: bool) returns (err: Option<Error>)
      modifies this`dynamic, this`byIP, this`declined, disk
      ensures Tables() == NO_LEASES
      ensures err == SaveError(site, diskOk)
      ensures disk.content == FileAfterSave(site, old(disk.content), NO_LEASES, diskOk)
    {
      dynamic, byIP, declined := map[], map[], map[];
      err := SaveLocked(diskOk);
    }

    /** `load`, into empty tables. */
    method Load(now: int, readable: bool) returns (err: Option<Error>)
      requires Valid() && Tables() == NO_LEASES
      modifies this`dynamic, this`byIP, this`declined
      ensures Valid()
      ensures err == (if site.leaseFile == "" then None
                      else if !readable then Some(ReadFailed)
                      else if disk.content == Garbled then Some(ParseFailed) else None)
      ensures err.None? ==>
        if site.leaseFile == "" || disk.content == Absent then Tables() == NO_LEASES
        else disk.content.Holds? && Loaded(site, disk.content.f, now, Tables())
    {
      if site.leaseFile == "" {
        return None;
      }
      if !readable {
        return Some(ReadFailed);
      }
      match disk.content {
        case Absent => return None;
        case Garbled => return Some(ParseFailed);
        case Holds(f) =>
          LoadLeaseRecords(f, now);
          LoadDeclinedRecords(f, now);
          return None;
      }
    }

    method LoadLeaseRecords(f: FileFormat, now: int)
      requires Valid() && Tables() == NO_LEASES
      modifies this`dynamic, this`byIP
      ensures exists order :: Enumerates(order, f.leases.Keys) && Tables() == LoadLeases(site, f, now, order)
    {
      var staticIPs := StaticIPSet();
      var macs := f.leases.Keys;
      ghost var order: seq<string> := [];
      while macs != {}
        invariant macs <= f.leases.Keys
        invariant Enumerates(order, f.leases.Keys - macs)
        invariant Tables() == LoadLeases(site, f, now, order)
        invariant staticLeases == old(staticLeases)
      {
        var mac :| mac in macs;
        EnumeratesNext(order, f.leases.Keys, macs, mac);
        macs := macs - {mac};
        order := order + [mac];
        var rec := f.leases[mac];
        var m := Canon(mac);
        var ip := ParseIp4(rec.ip);
        if m == "" || ip.None? || rec.expires <= now { continue; }
        if m in staticLeases { continue; }
        var v := ip.value;
        if !site.InPool(v) { continue; }
        if v in staticIPs { continue; }
        if v in byIP { continue; }
        dynamic := dynamic[m := Lease(m, v, site.gateway, site.dns, "", rec.expires, false)];
        byIP := byIP[v := m];
      }
      assert f.leases.Keys - macs == f.leases.Keys;
    }

    method LoadDeclinedRecords(f: FileFormat, now: int)
      requires Valid() && declined == map[]
      modifies this`declined
      ensures exists order :: Enumerates(order, f.declined.Keys) && declined == LoadDeclines(site, f, now, order)
    {
      var staticIPs := StaticIPSet();
      var texts := f.declined.Keys;
      ghost var order: seq<string> := [];
      while texts != {}
        invariant texts <= f.declined.Keys
        invariant Enumerates(order, f.declined.Keys - texts)
        invariant declined == LoadDeclines(site, f, now, order)
        invariant staticLeases == old(staticLeases)
      {
        var text :| text in texts;
        EnumeratesNext(order, f.declined.Keys, texts, text);
        texts := texts - {text};
        order := order + [text];
        var rec := f.declined[text];
        var ip := ParseIp4(text);
        if ip.None? || rec.expiresAt <= now { continue; }
        var v := ip.value;
        if !site.InPool(v) { continue; }
        if v in staticIPs { continue; }
        declined := declined[v := Quarantine(Canon(rec.mac), rec.expiresAt)];
      }
      assert f.declined.Keys - texts == f.declined.Keys;
    }
  }

  /** `v++` on a 32-bit unsigned integer. */
  function Increment(v: U32): U32 {
    (v + 1) % 0x1_0000_0000
  }

  /** `ClearLeaseFile`, the maintenance command that another process may run at any time. */
  method ClearLeaseFile(path: string, disk: Disk, diskOk: bool) returns (err: Option<Error>)
    modifies disk
    ensures disk.content == if path == "" || !diskOk then old(disk.content) else Holds(Save(NO_LEASES))
    ensures path != "" && diskOk ==> disk.content == Holds(FileFormat(1, map[], map[]))
    ensures err == if path == "" || diskOk then None else Some(SaveFailed)
  {
    if path == "" {
      return None;
    }
    if !diskOk {
      return Some(SaveFailed);
    }
    disk.content := Holds(FileFormat(CURRENT_VERSION, map[], map[]));
    assert Save(NO_LEASES).leases == map[] && Save(NO_LEASES).declined == map[];
    return None;
  }
}
