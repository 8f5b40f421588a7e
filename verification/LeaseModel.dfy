/**
 The lease allocator on values: its four maps, what each operation does to them,
 what is written to the lease file and what is read back from it.  The class in
 LeaseAllocator is proved to act exactly as these functions say.
 */
module LeaseModel {
  import opened Wrappers
  import opened MacText
  import opened IpText
  import opened Ip6Text

  datatype Lease = Lease(mac: string, ip: U32, gateway: Option<U32>, dns: seq<U32>, hostname: string,
                         expires: int, isStatic: bool)

  datatype Quarantine = Quarantine(mac: string, expiresAt: int)

  datatype LeaseRecord = LeaseRecord(ip: string, expires: int)

  datatype DeclinedRecord = DeclinedRecord(mac: string, expiresAt: int)

  datatype FileFormat = FileFormat(version: int, leases: map<string, LeaseRecord>, declined: map<string, DeclinedRecord>)

  datatype Error =
    | EmptyMac | NoPool | PoolExhausted | InvalidDeclinedIp | PoolReversed
    | SaveFailed | ReadFailed | ParseFailed

  /** What stays fixed while a server runs: configuration and static bindings (keyed by lower-case MAC). */
  datatype Site = Site(leaseFile: string, gateway: Option<U32>, dns: seq<U32>, leaseTime: int,
                       statics: map<string, Lease>, hasPool: bool, poolStart: U32, poolEnd: U32)
  {
    predicate Ok() {
      leaseTime > 0 && (hasPool ==> poolStart <= poolEnd)
    }

    predicate InPool(v: U32) {
      hasPool && poolStart <= v <= poolEnd
    }

    function Pool(): set<U32> {
      set v: U32 | poolStart <= v <= poolEnd && InPool(v)
    }

    function StaticIPs(): set<U32> {
      set m | m in statics :: statics[m].ip
    }

    /** The lease object built for a pool address. */
    function Dynamic(m: string, v: U32, expires: int): Lease {
      Lease(m, v, gateway, dns, "", expires, false)
    }
  }

  datatype Tables = Tables(dynamic: map<string, Lease>, byIP: map<U32, string>, declined: map<U32, Quarantine>)

  const NO_LEASES := Tables(map[], map[], map[])

  const CURRENT_VERSION := 1

  // ---------- the operations ----------

  function Expired(t: Tables, now: int): set<string> {
    set m | m in t.dynamic && t.dynamic[m].expires <= now
  }

  function ExpiredIPs(t: Tables, now: int): set<U32> {
    set m | m in Expired(t, now) :: t.dynamic[m].ip
  }

  function ExpiredDeclines(t: Tables, now: int): set<U32> {
    set v | v in t.declined && t.declined[v].expiresAt <= now
  }

  /** `reapExpiredLocked`. */
  function Reap(t: Tables, now: int): Tables {
    Tables(t.dynamic - Expired(t, now), t.byIP - ExpiredIPs(t, now), t.declined - ExpiredDeclines(t, now))
  }

  /** Addresses the allocation scan passes over. */
  function Taken(s: Site, t: Tables, now: int): set<U32> {
    t.byIP.Keys + s.StaticIPs() + (t.declined.Keys - ExpiredDeclines(t, now))
  }

  /** The least address from `v` to `end` that is not taken. */
  function FirstFree(taken: set<U32>, v: U32, end: U32): Option<U32>
    requires v <= end
    decreases end - v
  {
    if v !in taken then Some(v) else if v == end then None else FirstFree(taken, v + 1, end)
  }

  /** The tables after an operation, the lease to hand out, and the error that stopped it before any save. */
  datatype Allocation = Allocation(tables: Tables, lease: Result<Lease, Error>)

  function Bind(s: Site, t: Tables, m: string, v: U32, expires: int): Tables {
    t.(dynamic := t.dynamic[m := s.Dynamic(m, v, expires)], byIP := t.byIP[v := m])
  }

  /** The scan for a fresh address, on tables that have been reaped. */
  function AllocateFresh(s: Site, r: Tables, now: int, m: string): Allocation
    requires s.Ok()
  {
    if !s.hasPool then Allocation(r, Failure(NoPool))
    else
      match FirstFree(Taken(s, r, now), s.poolStart, s.poolEnd)
      case None => Allocation(r, Failure(PoolExhausted))
      case Some(v) => Allocation(Bind(s, r, m, v, now + s.leaseTime), Success(s.Dynamic(m, v, now + s.leaseTime)))
  }

  /** `Allocate` of a MAC without static binding. */
  function AllocateDynamic(s: Site, t: Tables, now: int, m: string): Allocation
    requires s.Ok()
  {
    var r := Reap(t, now);
    if m in r.dynamic then
      var l := r.dynamic[m].(expires := now + s.leaseTime);
      Allocation(r.(dynamic := r.dynamic[m := l]), Success(l))
    else AllocateFresh(s, r, now, m)
  }

  /** `Allocate` of a canonical MAC: the empty one is refused, static bindings win. */
  function Allocate(s: Site, t: Tables, now: int, m: string): Allocation
    requires s.Ok()
  {
    if m == "" then Allocation(t, Failure(EmptyMac))
    else if m in s.statics then Allocation(t, Success(s.statics[m].(expires := now + s.leaseTime)))
    else AllocateDynamic(s, t, now, m)
  }

  /** `Lookup` of a canonical MAC; it never reaps. */
  function Lookup(s: Site, t: Tables, now: int, m: string): Option<Lease> {
    if m in s.statics then Some(s.statics[m])
    else if m in t.dynamic && t.dynamic[m].expires > now then Some(t.dynamic[m])
    else None
  }

  /** Whether `Release` removes a lease: the MAC holds one, and a given address is the leased one. */
  predicate Releases(t: Tables, m: string, ip: Option<U32>) {
    m != "" && m in t.dynamic && (ip.None? || ip.value == t.dynamic[m].ip)
  }

  function Release(t: Tables, m: string, ip: Option<U32>): Tables {
    if Releases(t, m, ip) then t.(byIP := t.byIP - {t.dynamic[m].ip}, dynamic := t.dynamic - {m}) else t
  }

  function Evict(t: Tables, v: U32): Tables {
    if v in t.byIP then t.(dynamic := t.dynamic - {t.byIP[v]}, byIP := t.byIP - {v}) else t
  }

  /** `Decline` of an IPv4 address. */
  function Decline(s: Site, t: Tables, now: int, m: string, v: U32): Tables {
    var e := Evict(t, v);
    if v !in s.StaticIPs() && s.InPool(v)
    then e.(declined := e.declined[v := Quarantine(m, now + s.leaseTime)])
    else e
  }

  // ---------- the lease file ----------

  lemma IpTexts()
    ensures forall k: string, v: U32 {:trigger ParseDotted(k), IpString(v)} :: ParseDotted(k) == Some(v) <==> k == IpString(v)
    ensures forall v: U32 {:trigger IpString(v)} :: ParseIp4(IpString(v)) == Some(v)
  {
    forall k: string, v: U32 ensures ParseDotted(k) == Some(v) <==> k == IpString(v) {
      IpTextExact(k, v);
    }
    forall v: U32 ensures ParseIp4(IpString(v)) == Some(v) {
      PrintedParses(v);
    }
  }

  /** The lease records that `saveLocked` writes; SaveFacts says what they are. */
  ghost function SavedLeases(dynamic: map<string, Lease>): map<string, LeaseRecord> {
    if dynamic == map[] then map[]
    else
      var m :| m in dynamic;
      SavedLeases(dynamic - {m})[m := LeaseRecord(IpString(dynamic[m].ip), dynamic[m].expires)]
  }

  ghost function SavedDeclines(declined: map<U32, Quarantine>): map<string, DeclinedRecord> {
    if declined == map[] then map[]
    else
      var v :| v in declined;
      SavedDeclines(declined - {v})[IpString(v) := DeclinedRecord(declined[v].mac, declined[v].expiresAt)]
  }

  /** The record written by `saveLocked`. */
  ghost function Save(t: Tables): FileFormat {
    FileFormat(CURRENT_VERSION, SavedLeases(t.dynamic), SavedDeclines(t.declined))
  }

  lemma {:induction false} SavedLeasesFacts(dynamic: map<string, Lease>)
    ensures SavedLeases(dynamic).Keys == dynamic.Keys
    ensures forall m | m in dynamic :: SavedLeases(dynamic)[m] == LeaseRecord(IpString(dynamic[m].ip), dynamic[m].expires)
  {
    if dynamic != map[] {
      var m :| m in dynamic && SavedLeases(dynamic) ==
        SavedLeases(dynamic - {m})[m := LeaseRecord(IpString(dynamic[m].ip), dynamic[m].expires)];
      SavedLeasesFacts(dynamic - {m});
    }
  }

  /** Distinct addresses have distinct texts, so every decline has its own record. */
  lemma {:induction false} SavedDeclinesFacts(declined: map<U32, Quarantine>)
    ensures forall k :: k in SavedDeclines(declined) <==> ParseDotted(k).Some? && ParseDotted(k).value in declined
    ensures forall k | k in SavedDeclines(declined) :: var d := declined[ParseDotted(k).value];
              SavedDeclines(declined)[k] == DeclinedRecord(d.mac, d.expiresAt)
  {
    if declined != map[] {
      var v :| v in declined && SavedDeclines(declined) ==
        SavedDeclines(declined - {v})[IpString(v) := DeclinedRecord(declined[v].mac, declined[v].expiresAt)];
      SavedDeclinesFacts(declined - {v});
      forall k ensures ParseDotted(k) == Some(v) <==> k == IpString(v) {
        IpTextExact(k, v);
      }
    }
  }

  lemma SaveFacts(t: Tables)
    ensures Save(t).leases.Keys == t.dynamic.Keys
    ensures forall m | m in t.dynamic :: Save(t).leases[m] == LeaseRecord(IpString(t.dynamic[m].ip), t.dynamic[m].expires)
    ensures forall k :: k in Save(t).declined <==> ParseDotted(k).Some? && ParseDotted(k).value in t.declined
    ensures forall k | k in Save(t).declined :: var d := t.declined[ParseDotted(k).value];
              Save(t).declined[k] == DeclinedRecord(d.mac, d.expiresAt)
  {
    SavedLeasesFacts(t.dynamic);
    SavedDeclinesFacts(t.declined);
  }

  /** What a read of the lease file finds. */
  datatype Content = Absent | Garbled | Holds(f: FileFormat)

  /** The error a save reports.  Without a configured file nothing is written and nothing fails. */
  function SaveError(s: Site, diskOk: bool): Option<Error> {
    if s.leaseFile == "" || diskOk then None else Some(SaveFailed)
  }

  /** The file a save leaves behind; the rename replaces it in one step or not at all. */
  ghost function FileAfterSave(s: Site, before: Content, t: Tables, diskOk: bool): Content {
    if s.leaseFile == "" || !diskOk then before else Holds(Save(t))
  }

  /** The filters of `load` on one lease record, apart from liveness and collision. */
  predicate Admissible(s: Site, f: FileFormat, k: string) {
    k in f.leases && Canon(k) != "" && Canon(k) !in s.statics
    && match ParseIp4(f.leases[k].ip)
       case None => false
       case Some(v) => s.InPool(v) && v !in s.StaticIPs()
  }

  function AddressOf(s: Site, f: FileFormat, k: string): U32
    requires Admissible(s, f, k)
  {
    ParseIp4(f.leases[k].ip).value
  }

  /** One turn of the lease loop of `load`. */
  function LoadLease(s: Site, f: FileFormat, now: int, t: Tables, k: string): Tables
  {
    if Admissible(s, f, k) && f.leases[k].expires > now && AddressOf(s, f, k) !in t.byIP
    then Bind(s, t, Canon(k), AddressOf(s, f, k), f.leases[k].expires)
    else t
  }

  function LoadLeases(s: Site, f: FileFormat, now: int, order: seq<string>): Tables {
    if order == [] then NO_LEASES
    else LoadLease(s, f, now, LoadLeases(s, f, now, order[..|order| - 1]), order[|order| - 1])
  }

  /** The filters of `load` on one decline record. */
  predicate Kept(s: Site, f: FileFormat, now: int, k: string) {
    k in f.declined && f.declined[k].expiresAt > now
    && match ParseIp4(k)
       case None => false
       case Some(v) => s.InPool(v) && v !in s.StaticIPs()
  }

  /** One turn of the decline loop of `load`; a second text of an address replaces what the first one left. */
  function LoadDecline(s: Site, f: FileFormat, now: int, declined: map<U32, Quarantine>, k: string): map<U32, Quarantine> {
    if Kept(s, f, now, k)
    then declined[ParseIp4(k).value := Quarantine(Canon(f.declined[k].mac), f.declined[k].expiresAt)]
    else declined
  }

  function LoadDeclines(s: Site, f: FileFormat, now: int, order: seq<string>): map<U32, Quarantine> {
    if order == [] then map[]
    else LoadDecline(s, f, now, LoadDeclines(s, f, now, order[..|order| - 1]), order[|order| - 1])
  }

  /** `order` visits every key once. */
  ghost predicate Enumerates(order: seq<string>, keys: set<string>) {
    && (forall k :: k in keys <==> k in order)
    && (forall i, j :: 0 <= i < j < |order| ==> order[i] != order[j])
  }

  /** The visit of one of the keys that are left. */
  lemma EnumeratesNext(order: seq<string>, keys: set<string>, left: set<string>, k: string)
    requires Enumerates(order, keys - left) && k in left && left <= keys
    ensures Enumerates(order + [k], keys - (left - {k}))
    ensures (order + [k])[..|order + [k]| - 1] == order
  {
  }

  /** `t` is a possible outcome of `load`: one for each order in which the two maps of the file are visited. */
  ghost predicate Loaded(s: Site, f: FileFormat, now: int, t: Tables) {
    exists order, texts :: Enumerates(order, f.leases.Keys) && Enumerates(texts, f.declined.Keys)
      && t == LoadLeases(s, f, now, order).(declined := LoadDeclines(s, f, now, texts))
  }

  // ---------- invariants ----------

  /**
   Every lease is a proper pool lease and `byIP` knows its holder.  This much holds
   whatever file was loaded.
   */
  ghost predicate Sound(s: Site, t: Tables) {
    && (forall m | m in t.dynamic :: var l := t.dynamic[m];
          && m != "" && m !in s.statics
          && l == s.Dynamic(m, l.ip, l.expires)
          && s.InPool(l.ip) && l.ip !in s.StaticIPs()
          && l.ip in t.byIP && t.byIP[l.ip] == m)
    && (forall v | v in t.byIP :: s.InPool(v) && v !in s.StaticIPs())
    && (forall v | v in t.declined :: s.InPool(v) && v !in s.StaticIPs())
  }

  /** Every `byIP` entry is backed by a lease: with Sound, `dynamic` and `byIP` are mutual inverses. */
  ghost predicate Backed(t: Tables) {
    forall v | v in t.byIP :: t.byIP[v] in t.dynamic && t.dynamic[t.byIP[v]].ip == v
  }

  /** Lease keys on which another pass of `canon` changes nothing. */
  ghost predicate KeysSettled(t: Tables) {
    forall m | m in t.dynamic :: Canon(m) == m
  }

  /** The same of every MAC in the tables. */
  ghost predicate Settled(t: Tables) {
    KeysSettled(t) && forall v | v in t.declined :: Canon(t.declined[v].mac) == t.declined[v].mac
  }

  /** The full structural invariant. */
  ghost predicate Consistent(s: Site, t: Tables) {
    Sound(s, t) && Backed(t) && t.byIP.Keys !! t.declined.Keys
  }
}
