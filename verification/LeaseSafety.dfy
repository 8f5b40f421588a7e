/**
 Which lease files, and which tables in memory, are safe: from them no run acknowledges an
 address to two MACs at once (LeaseRuns), and from every other lease file some run does
 (LeaseFiles).
 */
module LeaseSafety {
  import opened Wrappers
  import opened MacText
  import opened IpText
  import opened Ip6Text
  import opened LeaseModel
  import opened LeaseInvariants

  // ---------- files ----------

  /** A record that a load at `now` may take up. */
  predicate Live(s: Site, f: FileFormat, now: int, k: string) {
    Admissible(s, f, k) && f.leases[k].expires > now
  }

  /** Two live records give one MAC two addresses: two spellings of it, say. */
  ghost predicate Clashing(s: Site, f: FileFormat, now: int) {
    exists k, l, m, v, w :: Clash(s, f, now, k, l, m, v, w)
  }

  ghost predicate Clash(s: Site, f: FileFormat, now: int, k: string, l: string, m: string, v: U32, w: U32) {
    Source(s, f, now, k, m, v) && Source(s, f, now, l, m, w) && v != w && Canon(m) == m
  }

  /** A live record whose key takes two passes of `canon`; its second form has no static binding. */
  predicate PaddedRecord(s: Site, f: FileFormat, now: int, k: string) {
    Live(s, f, now, k) && PaddedForeignSpelling(k) && Canon(Canon(k)) !in s.statics
  }

  /** Another live record, with another first form and the same second one, gives another address. */
  predicate Twins(s: Site, f: FileFormat, now: int, k: string, l: string)
    requires Live(s, f, now, k)
  {
    && Live(s, f, now, l) && Canon(l) != Canon(k) && Canon(Canon(l)) == Canon(Canon(k))
    && AddressOf(s, f, l) != AddressOf(s, f, k)
  }

  /** The record may take the address. */
  predicate Names(s: Site, f: FileFormat, at: int, y: string, x: U32) {
    Live(s, f, at, y) && AddressOf(s, f, y) == x
  }

  /** No live record names the address, or one does that is for neither of the two MACs and not for their addresses. */
  ghost predicate Foreign(s: Site, f: FileFormat, at: int, k: string, l: string, x: U32)
    requires Live(s, f, at, k) && Live(s, f, at, l)
  {
    || (forall y :: !Names(s, f, at, y, x))
    || (x != AddressOf(s, f, k) && x != AddressOf(s, f, l)
        && exists y :: Names(s, f, at, y, x) && Canon(y) != Canon(k) && Canon(y) != Canon(l))
  }

  /** A server that holds a lease under both first forms can come to save without losing one of them. */
  ghost predicate Savable(s: Site, f: FileFormat, at: int, k: string, l: string)
    requires Live(s, f, at, k) && Live(s, f, at, l)
  {
    Canon(Canon(l)) == Canon(l) || exists x :: Foreign(s, f, at, k, l, x)
  }

  /** A server that starts at `at` can save both records. */
  ghost predicate Twinned(s: Site, f: FileFormat, now: int, k: string, l: string, at: int) {
    now <= at && Live(s, f, at, k) && Twins(s, f, at, k, l) && Savable(s, f, at, k, l)
  }

  /** If live records name the address, one of them does for another MAC than that of `k`. */
  ghost predicate Freeable(s: Site, f: FileFormat, at: int, k: string, u: U32) {
    || (forall l :: !Names(s, f, at, l, u))
    || (exists l :: Names(s, f, at, l, u) && Canon(l) != Canon(k))
  }

  /** The decline record puts the address under a live decline. */
  predicate Keeps(s: Site, f: FileFormat, at: int, l: string, u: U32) {
    Kept(s, f, at, l) && ParseIp4(l) == Some(u)
  }

  /** If live declines name the address, one of them, or a new one made then, ends before `until`. */
  ghost predicate Undeclinable(s: Site, f: FileFormat, at: int, u: U32, until: int) {
    || (forall l :: !Keeps(s, f, at, l, u))
    || (exists l :: Keeps(s, f, at, l, u) && f.declined[l].expiresAt < until)
    || at + s.leaseTime < until
  }

  /** A server that starts at `at` can give address `u` to another MAC while record `k` runs. */
  ghost predicate Room(s: Site, f: FileFormat, now: int, k: string, at: int, u: U32)
    requires Live(s, f, now, k)
  {
    && now <= at < f.leases[k].expires && s.InPool(u) && u !in s.StaticIPs() && u != AddressOf(s, f, k)
    && Freeable(s, f, at, k, u) && Undeclinable(s, f, at, u, f.leases[k].expires)
  }

  /** A record under a padded key, and its second form may hold another address while it runs. */
  ghost predicate Doubled(s: Site, f: FileFormat, now: int, k: string) {
    PaddedRecord(s, f, now, k) && ((exists l, at :: Twinned(s, f, now, k, l, at)) || exists at, u :: Room(s, f, now, k, at, u))
  }

  /** No MAC has, or can come to have, two addresses in the file. */
  ghost predicate FileSafe(s: Site, f: FileFormat, now: int) {
    !Clashing(s, f, now) && forall k :: !Doubled(s, f, now, k)
  }

  /** Records only run out: a safe file stays safe. */
  lemma FileSafeLater(s: Site, f: FileFormat, now: int, later: int)
    requires FileSafe(s, f, now) && now <= later
    ensures FileSafe(s, f, later)
  {
    if Clashing(s, f, later) { ClashingBefore(s, f, now, later); }
    forall k ensures !Doubled(s, f, later, k) {
      if Doubled(s, f, later, k) { DoubledBefore(s, f, now, later, k); }
    }
  }

  lemma ClashingBefore(s: Site, f: FileFormat, now: int, later: int)
    requires Clashing(s, f, later) && now <= later
    ensures Clashing(s, f, now)
  {
    var k, l, m, v, w :| Clash(s, f, later, k, l, m, v, w);
    assert Clash(s, f, now, k, l, m, v, w);
  }

  lemma DoubledBefore(s: Site, f: FileFormat, now: int, later: int, k: string)
    requires Doubled(s, f, later, k) && now <= later
    ensures Doubled(s, f, now, k)
  {
    assert PaddedRecord(s, f, now, k);
    if l, at :| Twinned(s, f, later, k, l, at) {
      assert Twinned(s, f, now, k, l, at);
    } else {
      var at, u :| Room(s, f, later, k, at, u);
      assert Room(s, f, now, k, at, u);
    }
  }

  // ---------- memory ----------

  /** Of the address entries only those of MACs that take two passes of `canon` may be stale. */
  ghost predicate SettledBacked(t: Tables) {
    forall v | v in t.byIP && Canon(t.byIP[v]) == t.byIP[v] :: t.byIP[v] in t.dynamic && t.dynamic[t.byIP[v]].ip == v
  }

  /**
   Every MAC is a first form of `canon`, and live ones have different second forms, static
   bindings apart, unless their entries keep every save from happening while both hold a lease.
   */
  ghost predicate FormsApart(s: Site, t: Tables, now: int) {
    && (forall m | m in t.dynamic :: Canon(Canon(m)) == Canon(m))
    && (forall m, n | LiveIn(t, now, m) && LiveIn(t, now, n) && Canon(m) == Canon(n) && Canon(m) !in s.statics ::
         m == n || Locked(t, m, n))
  }

  /** Every address there is has an entry of one of the two, neither of which a request can come from. */
  ghost predicate Locked(t: Tables, m: string, n: string) {
    Canon(m) != m && Canon(n) != n && forall v: U32 :: v in t.byIP && (t.byIP[v] == m || t.byIP[v] == n)
  }

  /** Some address has no entry, or that of a MAC that requests can come from. */
  ghost predicate Unlocked(t: Tables) {
    exists v: U32 :: v !in t.byIP || Canon(t.byIP[v]) == t.byIP[v]
  }

  predicate LiveIn(t: Tables, now: int, m: string) {
    m in t.dynamic && t.dynamic[m].expires > now
  }

  /** A live lease whose second form might be served as another MAC. */
  predicate Loose(s: Site, t: Tables, now: int, n: string) {
    LiveIn(t, now, n) && Canon(n) != n && Canon(n) !in s.statics
  }

  /** While the lease of `n` runs nobody can be given address `u`: a stale entry of `n` or a decline stands before it. */
  predicate Closed(s: Site, t: Tables, now: int, n: string, u: U32)
    requires n in t.dynamic
  {
    || (u in t.byIP && t.byIP[u] == n)
    || (u in t.declined && t.declined[u].expiresAt >= t.dynamic[n].expires && now + s.leaseTime >= t.dynamic[n].expires)
  }

  ghost predicate LooseClosed(s: Site, t: Tables, now: int) {
    forall n, u | Loose(s, t, now, n) && s.InPool(u) && u !in s.StaticIPs() && u != t.dynamic[n].ip :: Closed(s, t, now, n, u)
  }

  ghost predicate MemorySafe(s: Site, t: Tables, now: int) {
    Sound(s, t) && SettledBacked(t) && FormsApart(s, t, now) && LooseClosed(s, t, now)
  }

  lemma MemorySafeLater(s: Site, t: Tables, now: int, later: int)
    requires MemorySafe(s, t, now) && now <= later
    ensures MemorySafe(s, t, later)
  {
    forall n, u | Loose(s, t, later, n) && s.InPool(u) && u !in s.StaticIPs() && u != t.dynamic[n].ip
      ensures Closed(s, t, later, n, u)
    {
      assert Loose(s, t, now, n) && Closed(s, t, now, n, u);
    }
  }

  /** Tables that are consistent and settled are safe. */
  lemma SettledIsSafe(s: Site, t: Tables, now: int)
    requires Sound(s, t) && Backed(t) && KeysSettled(t)
    ensures MemorySafe(s, t, now)
  {
  }

  lemma SettledUnlocked(t: Tables)
    requires Backed(t) && KeysSettled(t)
    ensures Unlocked(t)
  {
    assert 0 in t.byIP ==> t.byIP[0] in t.dynamic;
  }

  /** Taking leases away keeps the forms apart. */
  lemma FewerForms(s: Site, t: Tables, u: Tables, now: int)
    requires FormsApart(s, t, now) && forall n | n in u.dynamic :: n in t.dynamic && u.dynamic[n] == t.dynamic[n]
    requires forall v | v in t.byIP && t.byIP[v] in u.dynamic :: v in u.byIP && u.byIP[v] == t.byIP[v]
    ensures FormsApart(s, u, now)
  {
    forall m, n | LiveIn(u, now, m) && LiveIn(u, now, n) && Canon(m) == Canon(n) && Canon(m) !in s.statics
      ensures m == n || Locked(u, m, n)
    {
      assert LiveIn(t, now, m) && LiveIn(t, now, n);
      if m != n { StillLocked(t, u, m, n); }
    }
  }

  lemma StillLocked(t: Tables, u: Tables, m: string, n: string)
    requires Locked(t, m, n) && m in u.dynamic && n in u.dynamic
    requires forall v | v in t.byIP && t.byIP[v] in u.dynamic :: v in u.byIP && u.byIP[v] == t.byIP[v]
    ensures Locked(u, m, n)
  {
    forall v: U32 ensures v in u.byIP && (u.byIP[v] == m || u.byIP[v] == n) {
      assert v in t.byIP && (t.byIP[v] == m || t.byIP[v] == n);
    }
  }

  lemma ReapKeepsSafe(s: Site, t: Tables, now: int)
    requires MemorySafe(s, t, now)
    ensures MemorySafe(s, Reap(t, now), now)
  {
    var r := Reap(t, now);
    ReapKeeps(s, t, now);
    ReapLeavesEntries(s, t, now);
    FewerForms(s, t, r, now);
    forall v | v in r.byIP && Canon(r.byIP[v]) == r.byIP[v]
      ensures r.byIP[v] in r.dynamic && r.dynamic[r.byIP[v]].ip == v
    {
      assert t.byIP[v] in Expired(t, now) ==> v in ExpiredIPs(t, now);
    }
    forall n, u | Loose(s, r, now, n) && s.InPool(u) && u !in s.StaticIPs() && u != r.dynamic[n].ip
      ensures Closed(s, r, now, n, u)
    {
      ReapKeepsClosed(s, t, now, n, u);
    }
  }

  lemma ReapLeavesEntries(s: Site, t: Tables, now: int)
    requires Sound(s, t)
    ensures var r := Reap(t, now); forall v | v in t.byIP && t.byIP[v] in r.dynamic :: v in r.byIP && r.byIP[v] == t.byIP[v]
  {
    var r := Reap(t, now);
    forall v | v in t.byIP && t.byIP[v] in r.dynamic ensures v in r.byIP {
      forall m | m in Expired(t, now) ensures t.dynamic[m].ip != v {
        assert t.byIP[t.dynamic[m].ip] == m;
      }
    }
  }

  lemma ReapKeepsClosed(s: Site, t: Tables, now: int, n: string, u: U32)
    requires Sound(s, t) && LiveIn(t, now, n) && Closed(s, t, now, n, u)
    ensures Closed(s, Reap(t, now), now, n, u)
  {
    if u in t.byIP && t.byIP[u] == n {
      forall m | m in Expired(t, now) ensures t.dynamic[m].ip != u {
        assert t.byIP[t.dynamic[m].ip] == m;
      }
    }
  }

  /** In tables with a loose lease no address is unused, so the scan finds nothing. */
  lemma LooseStopsScan(s: Site, r: Tables, now: int, n: string, v: U32)
    requires MemorySafe(s, r, now)
    ensures Loose(s, r, now, n) ==> !Unused(s, r, v)
  {
    if Loose(s, r, now, n) && s.InPool(v) && v !in s.StaticIPs() && v != r.dynamic[n].ip {
      assert Closed(s, r, now, n, v);
    }
  }

  lemma RenewKeepsSafe(s: Site, r: Tables, now: int, m: string, expires: int, u: Tables)
    requires MemorySafe(s, r, now) && LiveIn(r, now, m) && Canon(m) == m && expires > now
    requires u == r.(dynamic := r.dynamic[m := r.dynamic[m].(expires := expires)])
    ensures MemorySafe(s, u, now)
  {
    RenewKeeps(s, r, m, expires);
    RenewedForms(s, r, now, m, expires, u);
    RenewedClosed(s, r, now, m, expires, u);
  }

  /** The renewed lease itself is not loose. */
  lemma RenewedClosed(s: Site, r: Tables, now: int, m: string, expires: int, u: Tables)
    requires LooseClosed(s, r, now) && m in r.dynamic && Canon(m) == m
    requires u == r.(dynamic := r.dynamic[m := r.dynamic[m].(expires := expires)])
    ensures LooseClosed(s, u, now)
  {
    forall n, v | Loose(s, u, now, n) && s.InPool(v) && v !in s.StaticIPs() && v != u.dynamic[n].ip
      ensures Closed(s, u, now, n, v)
    {
      assert Loose(s, r, now, n) && Closed(s, r, now, n, v);
    }
  }

  lemma RenewedForms(s: Site, r: Tables, now: int, m: string, expires: int, u: Tables)
    requires FormsApart(s, r, now) && LiveIn(r, now, m)
    requires u == r.(dynamic := r.dynamic[m := r.dynamic[m].(expires := expires)])
    ensures FormsApart(s, u, now)
  {
    forall a, b | LiveIn(u, now, a) && LiveIn(u, now, b) && Canon(a) == Canon(b) && Canon(a) !in s.statics
      ensures a == b || Locked(u, a, b)
    {
      assert LiveIn(r, now, a) && LiveIn(r, now, b);
      assert Locked(r, a, b) ==> Locked(u, a, b);
    }
  }

  lemma BindKeepsSafe(s: Site, r: Tables, now: int, m: string, v: U32, expires: int, u: Tables)
    requires MemorySafe(s, r, now) && m !in r.dynamic && Unused(s, r, v)
    requires m != "" && m !in s.statics && Canon(m) == m && u == Bind(s, r, m, v, expires)
    ensures MemorySafe(s, u, now)
  {
    BindKeeps(s, r, m, v, expires);
    forall n ensures !Loose(s, u, now, n) {
      LooseStopsScan(s, r, now, n, v);
      assert Loose(s, u, now, n) ==> Loose(s, r, now, n);
    }
    NoneLoose(s, u, now);
  }

  /** Without loose leases live MACs that are not settled have static bindings. */
  lemma NoneLoose(s: Site, u: Tables, now: int)
    requires (forall n :: !Loose(s, u, now, n)) && forall m | m in u.dynamic :: Canon(Canon(m)) == Canon(m)
    ensures FormsApart(s, u, now) && LooseClosed(s, u, now)
  {
    forall a, b | LiveIn(u, now, a) && LiveIn(u, now, b) && Canon(a) == Canon(b) && Canon(a) !in s.statics ensures a == b {
      assert !Loose(s, u, now, a) && !Loose(s, u, now, b);
    }
  }

  lemma AllocateKeepsSafe(s: Site, t: Tables, now: int, m: string)
    requires s.Ok() && MemorySafe(s, t, now) && Canon(m) == m
    ensures MemorySafe(s, Allocate(s, t, now, m).tables, now)
  {
    if m != "" && m !in s.statics {
      ReapKeepsSafe(s, t, now);
      AllocateShape(s, t, now, m);
      AllLive(t, now);
      AllocatedKeepsSafe(s, Reap(t, now), now, m, Allocate(s, t, now, m).tables);
    }
  }

  lemma AllLive(t: Tables, now: int)
    ensures forall m | m in Reap(t, now).dynamic :: LiveIn(Reap(t, now), now, m)
  {
  }

  lemma AllocatedKeepsSafe(s: Site, r: Tables, now: int, m: string, u: Tables)
    requires s.Ok() && MemorySafe(s, r, now) && Canon(m) == m && m != "" && m !in s.statics
    requires (forall n | n in r.dynamic :: LiveIn(r, now, n)) && Allocated(s, r, m, now + s.leaseTime, u)
    ensures MemorySafe(s, u, now)
  {
    var expires := now + s.leaseTime;
    if m in r.dynamic && u == r.(dynamic := r.dynamic[m := r.dynamic[m].(expires := expires)]) {
      RenewKeepsSafe(s, r, now, m, expires, u);
    } else if u != r {
      var v :| Unused(s, r, v) && u == Bind(s, r, m, v, expires);
      BindKeepsSafe(s, r, now, m, v, expires, u);
    }
  }

  lemma ReleaseKeepsSafe(s: Site, t: Tables, now: int, m: string, ip: Option<U32>)
    requires MemorySafe(s, t, now)
    ensures MemorySafe(s, Release(t, m, ip), now)
  {
    var u := Release(t, m, ip);
    ReleaseKeeps(s, t, m, ip);
    assert forall n | n in u.dynamic :: n in t.dynamic && u.dynamic[n] == t.dynamic[n];
    EntriesStay(s, t, m, ip);
    FewerForms(s, t, u, now);
    WithoutKeepsClosed(s, t, u, now);
    EntriesBacked(s, t, m, ip);
  }

  lemma EntriesBacked(s: Site, t: Tables, m: string, ip: Option<U32>)
    requires Sound(s, t) && SettledBacked(t)
    ensures SettledBacked(Release(t, m, ip))
  {
  }

  lemma EntriesStay(s: Site, t: Tables, m: string, ip: Option<U32>)
    requires Sound(s, t)
    ensures var u := Release(t, m, ip);
      forall v | v in t.byIP && t.byIP[v] in u.dynamic :: v in u.byIP && u.byIP[v] == t.byIP[v]
  {
  }

  /** Tables that lose leases and their entries keep what stands before the loose ones that stay. */
  lemma WithoutKeepsClosed(s: Site, t: Tables, u: Tables, now: int)
    requires LooseClosed(s, t, now) && u.declined == t.declined
    requires forall n | n in u.dynamic :: n in t.dynamic && u.dynamic[n] == t.dynamic[n]
    requires forall v | v in t.byIP && t.byIP[v] in u.dynamic :: v in u.byIP && u.byIP[v] == t.byIP[v]
    ensures LooseClosed(s, u, now)
  {
    forall n, v | Loose(s, u, now, n) && s.InPool(v) && v !in s.StaticIPs() && v != u.dynamic[n].ip
      ensures Closed(s, u, now, n, v)
    {
      assert Loose(s, t, now, n) && Closed(s, t, now, n, v);
    }
  }

  lemma EvictKeepsSafe(s: Site, t: Tables, now: int, v: U32)
    requires MemorySafe(s, t, now)
    ensures MemorySafe(s, Evict(t, v), now)
  {
    if v in t.byIP {
      var u := Evict(t, v);
      EvictKeeps(s, t, v);
      FewerForms(s, t, u, now);
      WithoutKeepsClosed(s, t, u, now);
    }
  }

  lemma DeclineKeepsSafe(s: Site, t: Tables, now: int, m: string, v: U32)
    requires MemorySafe(s, t, now)
    ensures MemorySafe(s, Decline(s, t, now, m, v), now)
  {
    var e, u := Evict(t, v), Decline(s, t, now, m, v);
    EvictKeepsSafe(s, t, now, v);
    DeclineKeeps(s, t, now, m, v);
    DeclineAfterEvict(s, t, now, m, v);
    FewerForms(s, e, u, now);
    LaterDeclines(s, e, u, now);
  }

  lemma DeclineAfterEvict(s: Site, t: Tables, now: int, m: string, v: U32)
    ensures var e, u := Evict(t, v), Decline(s, t, now, m, v);
      && u.dynamic == e.dynamic && u.byIP == e.byIP
      && forall x | x in e.declined ::
           x in u.declined && (u.declined[x] == e.declined[x] || u.declined[x].expiresAt == now + s.leaseTime)
  {
  }

  /** New declines run for a full lease time, so what was closed stays closed. */
  lemma LaterDeclines(s: Site, e: Tables, u: Tables, now: int)
    requires LooseClosed(s, e, now) && u.dynamic == e.dynamic && u.byIP == e.byIP
    requires forall x | x in e.declined ::
             x in u.declined && (u.declined[x] == e.declined[x] || u.declined[x].expiresAt == now + s.leaseTime)
    ensures LooseClosed(s, u, now)
  {
    forall n, x | Loose(s, u, now, n) && s.InPool(x) && x !in s.StaticIPs() && x != u.dynamic[n].ip
      ensures Closed(s, u, now, n, x)
    {
      assert Loose(s, e, now, n) && Closed(s, e, now, n, x);
    }
  }

  // ---------- memory and file ----------

  /** What safe tables are saved as is a safe file: its keys are settled or settle in one pass. */
  lemma SavedIsSafe(s: Site, t: Tables, now: int)
    requires MemorySafe(s, t, now) && Unlocked(t)
    ensures FileSafe(s, Save(t), now)
  {
    SaveFacts(t);
    forall k ensures !PaddedRecord(s, Save(t), now, k) {
      if k in t.dynamic { CanonIdempotentIff(k); }
    }
    if Clashing(s, Save(t), now) {
      var k, l, m, v, w :| Clash(s, Save(t), now, k, l, m, v, w);
      SavedSource(s, t, now, k, m, v);
      SavedSource(s, t, now, l, m, w);
      NotLocked(t, k, l);
    }
  }

  lemma NotLocked(t: Tables, m: string, n: string)
    requires Unlocked(t)
    ensures !Locked(t, m, n)
  {
  }

  /** A record that a load of saved tables takes up was a live lease of them. */
  lemma SavedSource(s: Site, t: Tables, now: int, k: string, m: string, v: U32)
    requires Sound(s, t) && Source(s, Save(t), now, k, m, v)
    ensures LiveIn(t, now, k) && t.dynamic[k].ip == v && Canon(k) == m
  {
    SaveFacts(t);
    SavedRecord(s, t, k);
  }

  /** Whatever the order, a load of a safe file leaves safe tables. */
  lemma LoadedIsSafe(s: Site, f: FileFormat, now: int, t: Tables)
    requires FileSafe(s, f, now) && Loaded(s, f, now, t)
    ensures MemorySafe(s, t, now)
  {
    LoadedSound(s, f, now, t);
    forall v | v in t.byIP && Canon(t.byIP[v]) == t.byIP[v] ensures t.byIP[v] in t.dynamic && t.dynamic[t.byIP[v]].ip == v {
      LoadedBackedAt(s, f, now, t, v);
    }
    forall m | m in t.dynamic ensures Canon(Canon(m)) == Canon(m) {
      var k := LoadedUnder(s, f, now, t, m);
      CanonSettles(k);
    }
    forall m, n | LiveIn(t, now, m) && LiveIn(t, now, n) && Canon(m) == Canon(n) && Canon(m) !in s.statics
      ensures m == n || Locked(t, m, n)
    {
      LoadedFormsApart(s, f, now, t, m, n);
    }
    forall n, u | Loose(s, t, now, n) && s.InPool(u) && u !in s.StaticIPs() && u != t.dynamic[n].ip
      ensures Closed(s, t, now, n, u)
    {
      LoadedClosed(s, f, now, t, n, u);
    }
  }

  lemma LoadedBackedAt(s: Site, f: FileFormat, now: int, t: Tables, v: U32)
    requires !Clashing(s, f, now) && Loaded(s, f, now, t) && v in t.byIP && Canon(t.byIP[v]) == t.byIP[v]
    ensures t.byIP[v] in t.dynamic && t.dynamic[t.byIP[v]].ip == v
  {
    var m := t.byIP[v];
    LoadedFacts(s, f, now, t);
    assert Origin(s, f, now, f.leases.Keys, m, v);
    var k :| Source(s, f, now, k, m, v);
    var l := LoadedUnder(s, f, now, t, m);
    NoClash(s, f, now, k, l, m, v, t.dynamic[m].ip);
  }

  lemma NoClash(s: Site, f: FileFormat, now: int, k: string, l: string, m: string, v: U32, w: U32)
    requires !Clashing(s, f, now) && Source(s, f, now, k, m, v) && Source(s, f, now, l, m, w) && Canon(m) == m
    ensures v == w
  {
    assert v != w ==> Clash(s, f, now, k, l, m, v, w);
  }

  /** The record behind a loose lease has a padded key. */
  lemma LooseRecord(s: Site, f: FileFormat, now: int, k: string, m: string, v: U32)
    requires Source(s, f, now, k, m, v) && Canon(m) != m && Canon(m) !in s.statics
    ensures PaddedRecord(s, f, now, k)
  {
    CanonIdempotentIff(k);
  }

  lemma LoadedFormsApart(s: Site, f: FileFormat, now: int, t: Tables, m: string, n: string)
    requires FileSafe(s, f, now) && Loaded(s, f, now, t) && Sound(s, t) && m in t.dynamic && n in t.dynamic
    requires Canon(m) == Canon(n) && Canon(m) !in s.statics
    ensures m == n || Locked(t, m, n)
  {
    if m != n {
      var k := LoadedUnder(s, f, now, t, m);
      var l := LoadedUnder(s, f, now, t, n);
      SoundUnique(s, t, m, n);
      if Canon(m) != m {
        LoadedLocked(s, f, now, t, m, n, k, l);
      } else {
        LoadedLocked(s, f, now, t, n, m, l, k);
      }
    }
  }

  /** Twins are loaded from a safe file only when every entry is of one of them. */
  lemma LoadedLocked(s: Site, f: FileFormat, now: int, t: Tables, m: string, n: string, k: string, l: string)
    requires FileSafe(s, f, now) && Loaded(s, f, now, t) && m in t.dynamic && n in t.dynamic && Canon(m) != m && m != n
    requires Canon(m) == Canon(n) && Canon(m) !in s.statics && t.dynamic[m].ip != t.dynamic[n].ip
    requires Source(s, f, now, k, m, t.dynamic[m].ip) && Source(s, f, now, l, n, t.dynamic[n].ip)
    requires Entered(t, m) && Entered(t, n)
    ensures Locked(t, m, n)
  {
    LooseRecord(s, f, now, k, m, t.dynamic[m].ip);
    assert Twins(s, f, now, k, l);
    assert !Savable(s, f, now, k, l) by {
      if Savable(s, f, now, k, l) { assert Twinned(s, f, now, k, l, now) && Doubled(s, f, now, k); }
    }
    forall v: U32 ensures v in t.byIP && (t.byIP[v] == m || t.byIP[v] == n) {
      assert !Foreign(s, f, now, k, l, v);
      NotForeign(s, f, now, t, k, l, v);
    }
  }

  /** The entry under the address of the lease is that of its holder. */
  predicate Entered(t: Tables, m: string)
    requires m in t.dynamic
  {
    t.dynamic[m].ip in t.byIP && t.byIP[t.dynamic[m].ip] == m
  }

  lemma NotForeign(s: Site, f: FileFormat, now: int, t: Tables, k: string, l: string, v: U32)
    requires Loaded(s, f, now, t) && Live(s, f, now, k) && Live(s, f, now, l) && !Foreign(s, f, now, k, l, v)
    ensures v in t.byIP
    ensures v != AddressOf(s, f, k) && v != AddressOf(s, f, l) ==> t.byIP[v] == Canon(k) || t.byIP[v] == Canon(l)
  {
    var y :| Names(s, f, now, y, v);
    var d := EntryRecord(s, f, now, t, y, v);
    assert Names(s, f, now, d, v);
  }

  /** Without room an address other than that of the loose lease is closed after the load. */
  lemma LoadedClosed(s: Site, f: FileFormat, now: int, t: Tables, n: string, u: U32)
    requires FileSafe(s, f, now) && Loaded(s, f, now, t) && Loose(s, t, now, n)
    requires s.InPool(u) && u !in s.StaticIPs() && u != t.dynamic[n].ip
    ensures Closed(s, t, now, n, u)
  {
    LoadedFacts(s, f, now, t);
    assert LeaseOrigin(s, f, now, f.leases.Keys, n, t.dynamic[n]);
    var k :| Source(s, f, now, k, n, t.dynamic[n].ip) && t.dynamic[n].expires == f.leases[k].expires;
    LooseRecord(s, f, now, k, n, t.dynamic[n].ip);
    assert !Room(s, f, now, k, now, u) by {
      if Room(s, f, now, k, now, u) { assert Doubled(s, f, now, k); }
    }
    if Freeable(s, f, now, k, u) {
      DeclineStands(s, f, now, t, u, f.leases[k].expires);
    } else {
      EntryStands(s, f, now, t, k, u);
    }
  }

  lemma DeclineStands(s: Site, f: FileFormat, now: int, t: Tables, u: U32, until: int)
    requires Loaded(s, f, now, t) && !Undeclinable(s, f, now, u, until)
    ensures u in t.declined && t.declined[u].expiresAt >= until && now + s.leaseTime >= until
  {
    LoadedFacts(s, f, now, t);
    var l :| Keeps(s, f, now, l, u);
    assert Kept(s, f, now, l);
    assert DeclineOrigin(s, f, now, f.declined.Keys, u, t.declined[u]);
    var d :| d in f.declined.Keys && DeclineSource(s, f, now, d, u, t.declined[u]);
    assert Keeps(s, f, now, d, u);
  }

  lemma EntryStands(s: Site, f: FileFormat, now: int, t: Tables, k: string, u: U32)
    requires Loaded(s, f, now, t) && !Freeable(s, f, now, k, u)
    ensures u in t.byIP && t.byIP[u] == Canon(k)
  {
    var l :| Names(s, f, now, l, u);
    var d := EntryRecord(s, f, now, t, l, u);
    assert Names(s, f, now, d, u);
  }

  /** A live record's address is taken, by the MAC of some live record for it. */
  lemma EntryRecord(s: Site, f: FileFormat, now: int, t: Tables, l: string, u: U32) returns (d: string)
    requires Loaded(s, f, now, t) && Live(s, f, now, l) && AddressOf(s, f, l) == u
    ensures u in t.byIP && Live(s, f, now, d) && AddressOf(s, f, d) == u && Canon(d) == t.byIP[u]
  {
    LoadedCovers(s, f, now, t, l);
    d := EntryOrigin(s, f, now, t, u);
  }

  lemma EntryOrigin(s: Site, f: FileFormat, now: int, t: Tables, u: U32) returns (d: string)
    requires Loaded(s, f, now, t) && u in t.byIP
    ensures Live(s, f, now, d) && AddressOf(s, f, d) == u && Canon(d) == t.byIP[u]
  {
    LoadedFacts(s, f, now, t);
    assert Origin(s, f, now, f.leases.Keys, t.byIP[u], u);
    d :| d in f.leases.Keys && Source(s, f, now, d, t.byIP[u], u);
  }
}
