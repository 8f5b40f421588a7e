/**
 The allocator object takes the steps of LeaseRuns: every call of a method, a start of the
 server and the maintenance command is one step of the world, and what the caller gets back
 is what the theorems about runs speak of.
 */
module LeaseProcess {
  import opened Wrappers
  import opened MacText
  import opened LeaseModel
  import opened LeaseInvariants
  import opened LeaseAllocator
  import opened LeaseRuns

  ghost function WorldOf(a: Allocator, now: int): World
    reads a, a.disk
  {
    World(Some(a.Tables()), a.disk.content, now)
  }

  /** One call on a running server. */
  predicate Operation(e: Event) {
    e.AllocateFor? || e.LookUp? || e.ReleaseBy? || e.DeclineBy? || e.ClearAll?
  }

  /** The lease reaches the client only without an error, as the DHCP handler has it. */
  method Perform(a: Allocator, e: Event, now: int) returns (acked: Option<Grant>)
    requires a.Valid() && Operation(e)
    modifies a, a.disk
    ensures a.Valid()
    ensures Step(a.site, old(WorldOf(a, now)), e, WorldOf(a, now))
    ensures acked == Acked(a.site, old(WorldOf(a, now)), e)
  {
    acked := None;
    match e {
      case AllocateFor(mac, diskOk) =>
        var lease, err := a.Allocate(mac, now, diskOk);
        if err.None? { acked := Some(Grant(Canon(mac), lease.value.ip, lease.value.expires)); }
      case LookUp(mac) =>
        var lease := a.Lookup(mac, now);
      case ReleaseBy(mac, ip, diskOk) =>
        var err := a.Release(mac, ip, diskOk);
      case DeclineBy(mac, ip, diskOk) =>
        var err := a.Decline(mac, ip, now, diskOk);
      case ClearAll(diskOk) =>
        var err := a.ClearDynamic(diskOk);
    }
  }

  /** A start of the server, from whatever the last process left on the disk; a reversed pool stops it. */
  method Start(c: Config, disk: Disk, now: int, readable: bool) returns (a: Allocator?)
    requires c.leaseTime > 0
    ensures a != null ==> fresh(a) && a.site == SiteOf(c) && a.disk == disk && a.Valid()
    ensures if !SiteOf(c).Ok() then a == null
            else Step(SiteOf(c), World(None, disk.content, now), Event.Start(readable),
                      World(if a == null then None else Some(a.Tables()), disk.content, now))
  {
    var r := Allocator.New(c, disk, now, readable);
    if r.Failure? {
      return null;
    }
    return r.value;
  }

  /** A lease with the terms that are configured for the pool, at an address that is bound to nobody. */
  ghost predicate ConfiguredPoolLease(c: Config, l: Lease, m: string) {
    && l.mac == m && l.gateway == c.gateway && l.dns == c.dns && l.hostname == "" && !l.isStatic
    && c.poolStart.Some? && c.poolEnd.Some? && c.poolStart.value <= l.ip <= c.poolEnd.value
    && forall i | Counts(c, |c.statics|, i) :: c.statics[i].ip != l.ip
  }

  /**
   From configuration to answer: a server starts, on whatever the lease file holds, and a
   client asks.  A bound MAC is given its binding, any other MAC that is given an address is
   given the terms of the pool, both for a full lease time.
   */
  method StartAndAsk(c: Config, disk: Disk, now: int, readable: bool, mac: string, later: int, diskOk: bool)
    returns (started: bool, lease: Option<Lease>)
    requires c.leaseTime > 0
    modifies disk
    ensures !started <==> || (c.poolStart.Some? && c.poolEnd.Some? && c.poolStart.value > c.poolEnd.value)
                          || (c.leaseFile != "" && (!readable || old(disk.content) == Garbled))
    ensures forall i | started && Counts(c, |c.statics|, i) && Key(c, i) == Canon(mac) != "" ::
              lease.Some? && Configures(c, c.statics[i], lease.value)
    ensures lease.Some? ==> lease.value.expires == later + c.leaseTime
    ensures lease.Some? && !HasKey(c, |c.statics|, Canon(mac)) ==> ConfiguredPoolLease(c, lease.value, Canon(mac))
  {
    var r := Allocator.New(c, disk, now, readable);
    if r.Failure? {
      return false, None;
    }
    var a := r.value;
    StartedSound(SiteOf(c), a.Tables(), disk.content, now);
    var err;
    lease, err := a.Allocate(mac, later, diskOk);
    started := true;
    if lease.Some? { AskedTerms(c, Canon(mac), lease.value, later + c.leaseTime); }
  }

  lemma StartedSound(s: Site, t: Tables, content: Content, now: int)
    requires t == NO_LEASES || (content.Holds? && Loaded(s, content.f, now, t))
    ensures Sound(s, t)
  {
    if t != NO_LEASES { LoadedSound(s, content.f, now, t); }
  }

  lemma AskedTerms(c: Config, m: string, l: Lease, expires: int)
    requires Terms(SiteOf(c), l, m, expires)
    ensures l.expires == expires
    ensures forall i | Counts(c, |c.statics|, i) && Key(c, i) == m :: Configures(c, c.statics[i], l)
    ensures !HasKey(c, |c.statics|, m) ==> ConfiguredPoolLease(c, l, m)
  {
    SiteIsConfigured(c);
    var table := SiteOf(c).statics;
    if !HasKey(c, |c.statics|, m) {
      forall i | Counts(c, |c.statics|, i) ensures c.statics[i].ip != l.ip {
        assert table[Key(c, i)].ip == c.statics[i].ip;
      }
    }
  }

  /** The maintenance command, whether a server is running or not. */
  method Clear(a: Allocator?, s: Site, disk: Disk, now: int, diskOk: bool)
    requires s.Ok() && (a != null ==> a.disk == disk)
    modifies disk
    ensures var mem := if a == null then None else Some(a.Tables());
      Step(s, World(mem, old(disk.content), now), ClearFile(diskOk), World(mem, disk.content, now))
  {
    var err := ClearLeaseFile(s.leaseFile, disk, diskOk);
  }
}
