/** What every operation of the allocator, and every load of every lease file, keeps. */
module LeaseInvariants {
  import opened Wrappers
  import opened MacText
  import opened IpText
  import opened Ip6Text
  import opened LeaseModel

  // ---------- the allocation scan ----------

  /** First fit: the scan finds the least address that is not taken, and gives up only when there is none. */
  lemma {:induction false} FirstFreeLeast(taken: set<U32>, v: U32, end: U32)
    requires v <= end
    ensures match FirstFree(taken, v, end)
      case None => forall u: U32 | v <= u <= end :: u in taken
      case Some(w) => v <= w <= end && w !in taken && forall u: U32 | v <= u < w :: u in taken
    decreases end - v
  {
    if v in taken && v != end {
      FirstFreeLeast(taken, v + 1, end);
    }
  }

  // ---------- what each operation keeps ----------

  /** Distinct MACs hold distinct addresses, none of them a static one. */
  lemma SoundUnique(s: Site, t: Tables, m: string, n: string)
    requires Sound(s, t) && m in t.dynamic && n in t.dynamic
    ensures t.dynamic[m].ip == t.dynamic[n].ip ==> m == n
    ensures t.dynamic[m].ip !in s.StaticIPs()
  {
    assert t.byIP[t.dynamic[m].ip] == m && t.byIP[t.dynamic[n].ip] == n;
  }

  /** A lease from the pool: the address is a pool address, the rest comes from the configuration. */
  predicate PoolLease(s: Site, l: Lease, m: string, expires: int) {
    && l.mac == m && l.expires == expires && !l.isStatic && l.hostname == ""
    && l.gateway == s.gateway && l.dns == s.dns
    && s.hasPool && s.poolStart <= l.ip <= s.poolEnd && forall k | k in s.statics :: s.statics[k].ip != l.ip
  }

  /** A lease for a static binding: everything but the expiry is configured. */
  predicate BoundLease(s: Site, l: Lease, m: string, expires: int)
    requires m in s.statics
  {
    var b := s.statics[m];
    && l.mac == b.mac && l.ip == b.ip && l.gateway == b.gateway && l.dns == b.dns && l.hostname == b.hostname
    && l.isStatic == b.isStatic && l.expires == expires
  }

  predicate Terms(s: Site, l: Lease, m: string, expires: int) {
    if m in s.statics then BoundLease(s, l, m, expires) else PoolLease(s, l, m, expires)
  }

  /** What a client is told: a full lease time, and the terms of its binding or of the pool. */
  lemma LeaseTerms(s: Site, t: Tables, now: int, m: string)
    requires s.Ok()
    ensures var a := Allocate(s, t, now, m); Sound(s, t) && a.lease.Success? ==> Terms(s, a.lease.value, m, now + s.leaseTime)
  {
    if m !in s.statics && Sound(s, t) && Allocate(s, t, now, m).lease.Success? {
      AllocateKeeps(s, t, now, m);
      var u, l := Allocate(s, t, now, m).tables, Allocate(s, t, now, m).lease.value;
      assert m in u.dynamic && u.dynamic[m] == l;
      assert s.Dynamic(m, l.ip, l.expires) == Lease(m, l.ip, s.gateway, s.dns, "", l.expires, false);
    }
  }

  lemma ReapKeeps(s: Site, t: Tables, now: int)
    requires Sound(s, t)
    ensures Sound(s, Reap(t, now))
    ensures Backed(t) ==> Backed(Reap(t, now))
    ensures Consistent(s, t) ==> Consistent(s, Reap(t, now))
    ensures KeysSettled(t) ==> KeysSettled(Reap(t, now))
    ensures Settled(t) ==> Settled(Reap(t, now))
  {
    var r := Reap(t, now);
    forall m | m in r.dynamic
      ensures r.dynamic[m].ip in r.byIP
    {
      forall n | n in Expired(t, now) ensures t.dynamic[n].ip != t.dynamic[m].ip {
        SoundUnique(s, t, m, n);
      }
    }
    if Backed(t) {
      forall v | v in r.byIP
        ensures r.byIP[v] in r.dynamic
      {
        assert t.byIP[v] in Expired(t, now) ==> v in ExpiredIPs(t, now);
      }
    }
  }

  lemma ReapTwice(t: Tables, now: int)
    ensures Reap(Reap(t, now), now) == Reap(t, now)
  {
    var r := Reap(t, now);
    assert Expired(r, now) == {} && ExpiredDeclines(r, now) == {} && ExpiredIPs(r, now) == {};
  }

  lemma BindKeeps(s: Site, t: Tables, m: string, v: U32, expires: int)
    requires Sound(s, t) && v !in t.byIP
    requires m != "" && m !in s.statics && s.InPool(v) && v !in s.StaticIPs()
    ensures Sound(s, Bind(s, t, m, v, expires))
    ensures Backed(t) && m !in t.dynamic ==> Backed(Bind(s, t, m, v, expires))
  {
  }

  lemma RenewKeeps(s: Site, t: Tables, m: string, expires: int)
    requires Sound(s, t) && m in t.dynamic
    ensures var u := t.(dynamic := t.dynamic[m := t.dynamic[m].(expires := expires)]);
      Sound(s, u) && (Backed(t) ==> Backed(u)) && (Settled(t) ==> Settled(u))
  {
  }

  /** The address the scan picks is neither leased, nor static, nor under a live decline. */
  lemma FreshAddress(s: Site, r: Tables, now: int)
    requires s.Ok() && s.hasPool && ExpiredDeclines(r, now) == {}
    ensures match FirstFree(Taken(s, r, now), s.poolStart, s.poolEnd)
      case None => true
      case Some(v) => s.InPool(v) && v !in r.byIP && v !in s.StaticIPs() && v !in r.declined
  {
    FirstFreeLeast(Taken(s, r, now), s.poolStart, s.poolEnd);
  }

  /** An address no one holds and no one may not hold. */
  ghost predicate Unused(s: Site, r: Tables, v: U32) {
    s.InPool(v) && v !in r.byIP && v !in s.StaticIPs() && v !in r.declined
  }

  /** What an allocation makes of reaped tables: nothing, a renewal, or a binding of an unused address. */
  ghost predicate Allocated(s: Site, r: Tables, m: string, expires: int, u: Tables) {
    || u == r
    || (m in r.dynamic && u == r.(dynamic := r.dynamic[m := r.dynamic[m].(expires := expires)]))
    || (m !in r.dynamic && exists v :: Unused(s, r, v) && u == Bind(s, r, m, v, expires))
  }

  lemma AllocateShape(s: Site, t: Tables, now: int, m: string)
    requires s.Ok() && m != "" && m !in s.statics
    ensures Allocated(s, Reap(t, now), m, now + s.leaseTime, Allocate(s, t, now, m).tables)
  {
    var r := Reap(t, now);
    if m !in r.dynamic && s.hasPool {
      FreshAddress(s, r, now);
      match FirstFree(Taken(s, r, now), s.poolStart, s.poolEnd)
      case None =>
      case Some(v) => assert Unused(s, r, v);
    }
  }

  lemma AllocatedKeeps(s: Site, r: Tables, m: string, expires: int, u: Tables)
    requires Sound(s, r) && m != "" && m !in s.statics && Allocated(s, r, m, expires, u)
    ensures Sound(s, u)
    ensures Backed(r) ==> Backed(u)
    ensures Consistent(s, r) ==> Consistent(s, u)
  {
    if m in r.dynamic {
      RenewKeeps(s, r, m, expires);
    } else if u != r {
      var v :| Unused(s, r, v) && u == Bind(s, r, m, v, expires);
      BindKeeps(s, r, m, v, expires);
    }
  }

  lemma AllocateKeeps(s: Site, t: Tables, now: int, m: string)
    requires s.Ok() && Sound(s, t)
    ensures var u := Allocate(s, t, now, m).tables;
      && Sound(s, u)
      && (Backed(t) ==> Backed(u))
      && (Consistent(s, t) ==> Consistent(s, u))
  {
    if m != "" && m !in s.statics {
      ReapKeeps(s, t, now);
      AllocateShape(s, t, now, m);
      AllocatedKeeps(s, Reap(t, now), m, now + s.leaseTime, Allocate(s, t, now, m).tables);
    }
  }

  lemma AllocateSettled(s: Site, t: Tables, now: int, m: string)
    requires s.Ok() && KeysSettled(t) && Canon(m) == m
    ensures KeysSettled(Allocate(s, t, now, m).tables)
    ensures Settled(t) ==> Settled(Allocate(s, t, now, m).tables)
  {
    if m != "" && m !in s.statics {
      AllocateShape(s, t, now, m);
    }
  }

  lemma ReleaseKeeps(s: Site, t: Tables, m: string, ip: Option<U32>)
    requires Sound(s, t)
    ensures var u := Release(t, m, ip);
      && Sound(s, u)
      && (Backed(t) ==> Backed(u))
      && (Consistent(s, t) ==> Consistent(s, u))
      && (KeysSettled(t) ==> KeysSettled(u))
      && (Settled(t) ==> Settled(u))
  {
  }

  lemma DeclineKeeps(s: Site, t: Tables, now: int, m: string, v: U32)
    requires Sound(s, t)
    ensures var u := Decline(s, t, now, m, v);
      && Sound(s, u)
      && (Backed(t) ==> Backed(u))
      && (Consistent(s, t) ==> Consistent(s, u))
      && (KeysSettled(t) ==> KeysSettled(u))
      && (Settled(t) && Canon(m) == m ==> Settled(u))
  {
    EvictKeeps(s, t, v);
  }

  lemma EvictKeeps(s: Site, t: Tables, v: U32)
    requires Sound(s, t)
    ensures var u := Evict(t, v);
      && Sound(s, u) && v !in u.byIP && u.declined == t.declined
      && u.byIP.Keys <= t.byIP.Keys && (forall n | n in u.dynamic :: n in t.dynamic && u.dynamic[n] == t.dynamic[n])
      && (Backed(t) ==> Backed(u))
  {
  }

  // ---------- what a load yields ----------

  /** Key `k` of the file is a live, admissible record binding `m` to `v`. */
  ghost predicate Source(s: Site, f: FileFormat, now: int, k: string, m: string, v: U32) {
    Admissible(s, f, k) && f.leases[k].expires > now && Canon(k) == m && AddressOf(s, f, k) == v
  }

  ghost predicate Origin(s: Site, f: FileFormat, now: int, done: set<string>, m: string, v: U32) {
    exists k :: k in done && Source(s, f, now, k, m, v)
  }

  ghost predicate LeaseOrigin(s: Site, f: FileFormat, now: int, done: set<string>, m: string, l: Lease) {
    exists k :: k in done && Source(s, f, now, k, m, l.ip) && l.expires == f.leases[k].expires
  }

  /** The state of the lease loop after the keys `done`, in whatever order they came. */
  ghost predicate LoadedFrom(s: Site, f: FileFormat, now: int, done: set<string>, t: Tables) {
    && Sound(s, t) && t.declined == map[]
    && (forall m | m in t.dynamic :: LeaseOrigin(s, f, now, done, m, t.dynamic[m]))
    && (forall v | v in t.byIP :: t.byIP[v] in t.dynamic && Origin(s, f, now, done, t.byIP[v], v))
    && (forall k | k in done && Admissible(s, f, k) && f.leases[k].expires > now :: AddressOf(s, f, k) in t.byIP)
  }

  lemma {:induction false} LoadLeasesFacts(s: Site, f: FileFormat, now: int, order: seq<string>)
    ensures LoadedFrom(s, f, now, (set k | k in order), LoadLeases(s, f, now, order))
  {
    if order != [] {
      var n := |order| - 1;
      var before, k := order[..n], order[n];
      LoadLeasesFacts(s, f, now, before);
      KeysAndLast(order, before, k);
      LoadLeaseFacts(s, f, now, (set x | x in before), LoadLeases(s, f, now, before), k);
    }
  }

  lemma KeysAndLast(order: seq<string>, before: seq<string>, k: string)
    requires order != [] && before == order[..|order| - 1] && k == order[|order| - 1]
    ensures (set x | x in order) == (set x | x in before) + {k}
  {
    assert order == before + [k];
  }

  lemma OriginGrows(s: Site, f: FileFormat, now: int, done: set<string>, k: string)
    ensures forall m: string, v: U32 :: Origin(s, f, now, done, m, v) ==> Origin(s, f, now, done + {k}, m, v)
    ensures forall m: string, l: Lease :: LeaseOrigin(s, f, now, done, m, l) ==> LeaseOrigin(s, f, now, done + {k}, m, l)
  {
  }

  lemma LoadLeaseFacts(s: Site, f: FileFormat, now: int, done: set<string>, t: Tables, k: string)
    requires LoadedFrom(s, f, now, done, t)
    ensures LoadedFrom(s, f, now, done + {k}, LoadLease(s, f, now, t, k))
  {
    OriginGrows(s, f, now, done, k);
    if Admissible(s, f, k) && f.leases[k].expires > now && AddressOf(s, f, k) !in t.byIP {
      BindFacts(s, f, now, done, t, k, Canon(k), AddressOf(s, f, k));
    }
  }

  lemma BindFacts(s: Site, f: FileFormat, now: int, done: set<string>, t: Tables, k: string, m: string, v: U32)
    requires LoadedFrom(s, f, now, done, t)
    requires Source(s, f, now, k, m, v) && v !in t.byIP
    ensures LoadedFrom(s, f, now, done + {k}, Bind(s, t, m, v, f.leases[k].expires))
  {
    var u, all := Bind(s, t, m, v, f.leases[k].expires), done + {k};
    BindKeeps(s, t, m, v, f.leases[k].expires);
    forall n | n in u.dynamic ensures LeaseOrigin(s, f, now, all, n, u.dynamic[n]) {
      if n == m {
        assert k in all;
      } else {
        assert LeaseOrigin(s, f, now, done, n, t.dynamic[n]);
        OriginGrows(s, f, now, done, k);
      }
    }
    forall w | w in u.byIP ensures u.byIP[w] in u.dynamic && Origin(s, f, now, all, u.byIP[w], w) {
      if w == v {
        assert k in all;
      } else {
        assert Origin(s, f, now, done, t.byIP[w], w);
        OriginGrows(s, f, now, done, k);
      }
    }
  }

  /** Decline record `k` of the file puts `q` under address `v`. */
  ghost predicate DeclineSource(s: Site, f: FileFormat, now: int, k: string, v: U32, q: Quarantine) {
    Kept(s, f, now, k) && ParseIp4(k) == Some(v) && q == Quarantine(Canon(f.declined[k].mac), f.declined[k].expiresAt)
  }

  ghost predicate DeclineOrigin(s: Site, f: FileFormat, now: int, done: set<string>, v: U32, q: Quarantine) {
    exists k :: k in done && DeclineSource(s, f, now, k, v, q)
  }

  /** The state of the decline loop after the keys `done`, in whatever order they came. */
  ghost predicate DeclinedFrom(s: Site, f: FileFormat, now: int, done: set<string>, d: map<U32, Quarantine>) {
    && (forall v | v in d :: DeclineOrigin(s, f, now, done, v, d[v]))
    && (forall k | k in done && Kept(s, f, now, k) :: ParseIp4(k).value in d)
  }

  lemma {:induction false} LoadDeclinesFacts(s: Site, f: FileFormat, now: int, order: seq<string>)
    ensures DeclinedFrom(s, f, now, (set k | k in order), LoadDeclines(s, f, now, order))
  {
    if order != [] {
      var n := |order| - 1;
      var before, k := order[..n], order[n];
      LoadDeclinesFacts(s, f, now, before);
      LoadDeclineFacts(s, f, now, (set x | x in before), LoadDeclines(s, f, now, before), k);
      assert (set x | x in order) == (set x | x in before) + {k};
    }
  }

  lemma LoadDeclineFacts(s: Site, f: FileFormat, now: int, done: set<string>, d: map<U32, Quarantine>, k: string)
    requires DeclinedFrom(s, f, now, done, d)
    ensures DeclinedFrom(s, f, now, done + {k}, LoadDecline(s, f, now, d, k))
  {
    var u := LoadDecline(s, f, now, d, k);
    forall v | v in u ensures DeclineOrigin(s, f, now, done + {k}, v, u[v]) {
      if Kept(s, f, now, k) && ParseIp4(k) == Some(v) {
        assert DeclineSource(s, f, now, k, v, u[v]) && k in done + {k};
      } else {
        assert DeclineOrigin(s, f, now, done, v, d[v]);
        var l :| l in done && DeclineSource(s, f, now, l, v, d[v]);
        assert l in done + {k};
      }
    }
  }

  lemma LoadedFacts(s: Site, f: FileFormat, now: int, t: Tables)
    requires Loaded(s, f, now, t)
    ensures LoadedFrom(s, f, now, f.leases.Keys, t.(declined := map[]))
    ensures DeclinedFrom(s, f, now, f.declined.Keys, t.declined)
  {
    var order, texts :| Enumerates(order, f.leases.Keys) && Enumerates(texts, f.declined.Keys)
                        && t == LoadLeases(s, f, now, order).(declined := LoadDeclines(s, f, now, texts));
    LoadLeasesFacts(s, f, now, order);
    LoadDeclinesFacts(s, f, now, texts);
    assert (set k | k in order) == f.leases.Keys && (set k | k in texts) == f.declined.Keys;
    assert t.(declined := map[]) == LoadLeases(s, f, now, order);
  }

  /** Any order of the leases, completed by some order of the declines, is a possible load. */
  lemma SomeLoad(s: Site, f: FileFormat, now: int, order: seq<string>) returns (t: Tables)
    requires Enumerates(order, f.leases.Keys)
    ensures Loaded(s, f, now, t) && t == LoadLeases(s, f, now, order).(declined := t.declined)
  {
    var texts := SomeOrder(f.declined.Keys);
    t := LoadLeases(s, f, now, order).(declined := LoadDeclines(s, f, now, texts));
  }

  /** The address of a live admissible record is taken after the load. */
  lemma LoadedCovers(s: Site, f: FileFormat, now: int, u: Tables, k: string)
    requires Loaded(s, f, now, u) && Admissible(s, f, k) && f.leases[k].expires > now
    ensures AddressOf(s, f, k) in u.byIP
  {
    LoadedFacts(s, f, now, u);
  }

  /** A key of the file that a loaded lease comes from. */
  lemma LoadedUnder(s: Site, f: FileFormat, now: int, t: Tables, m: string) returns (k: string)
    requires Loaded(s, f, now, t) && m in t.dynamic
    ensures k in f.leases && Source(s, f, now, k, m, t.dynamic[m].ip)
    ensures Canon(k) == m
  {
    LoadedFacts(s, f, now, t);
    assert LeaseOrigin(s, f, now, f.leases.Keys, m, t.dynamic[m]);
    k :| k in f.leases.Keys && Source(s, f, now, k, m, t.dynamic[m].ip);
  }

  /** Whatever file is loaded, in whatever order, the tables are Sound. */
  lemma LoadedSound(s: Site, f: FileFormat, now: int, t: Tables)
    requires Loaded(s, f, now, t)
    ensures Sound(s, t)
  {
    LoadedFacts(s, f, now, t);
    forall v | v in t.declined ensures s.InPool(v) && v !in s.StaticIPs() {
      assert DeclineOrigin(s, f, now, f.declined.Keys, v, t.declined[v]);
    }
  }

  /** Two live admissible records give one MAC two addresses: two spellings of it, say. */
  ghost predicate Conflicting(s: Site, f: FileFormat, now: int) {
    exists k, l, m, v, w :: Source(s, f, now, k, m, v) && Source(s, f, now, l, m, w) && v != w
  }

  lemma LoadedBacked(s: Site, f: FileFormat, now: int, t: Tables)
    requires Loaded(s, f, now, t) && !Conflicting(s, f, now)
    ensures Backed(t)
  {
    LoadedFacts(s, f, now, t);
    forall v | v in t.byIP
      ensures t.byIP[v] in t.dynamic && t.dynamic[t.byIP[v]].ip == v
    {
      var m := t.byIP[v];
      assert Origin(s, f, now, f.leases.Keys, m, v);
      assert LeaseOrigin(s, f, now, f.leases.Keys, m, t.dynamic[m]);
    }
  }

  lemma {:induction false} SomeOrder(keys: set<string>) returns (order: seq<string>)
    ensures Enumerates(order, keys)
  {
    if keys == {} {
      order := [];
    } else {
      var k :| k in keys;
      var rest := SomeOrder(keys - {k});
      order := [k] + rest;
    }
  }

  /** An address that `byIP` gives to a MAC which holds another one. */
  ghost predicate Stale(t: Tables, m: string, v: U32) {
    v in t.byIP && t.byIP[v] == m && m in t.dynamic && t.dynamic[m].ip != v
  }

  lemma {:induction false} StaleStays(s: Site, f: FileFormat, now: int, order: seq<string>, k: string, l: string,
                                      m: string, v: U32, w: U32)
    requires |order| >= 2 && order[0] == k && order[1] == l
    requires Source(s, f, now, k, m, v) && Source(s, f, now, l, m, w) && v != w
    ensures Stale(LoadLeases(s, f, now, order), m, v)
  {
    var n := |order| - 1;
    if n == 1 {
      assert order[..0] == [] && order[..1] == [k] && [k][..0] == [];
      assert LoadLeases(s, f, now, [k]) == Bind(s, NO_LEASES, m, v, f.leases[k].expires);
    } else {
      StaleStays(s, f, now, order[..n], k, l, m, v, w);
    }
  }

  /** A visiting order under which two addresses of one MAC leave a stale entry. */
  lemma StaleLoad(s: Site, f: FileFormat, now: int, k: string, l: string, m: string, v: U32, w: U32) returns (t: Tables)
    requires Source(s, f, now, k, m, v) && Source(s, f, now, l, m, w) && v != w
    ensures Loaded(s, f, now, t) && Stale(t, m, v)
  {
    var rest := SomeOrder(f.leases.Keys - {k, l});
    var order := [k, l] + rest;
    assert Enumerates(order, f.leases.Keys);
    StaleStays(s, f, now, order, k, l, m, v, w);
    t := SomeLoad(s, f, now, order);
  }

  /**
   After a load, `dynamic` and `byIP` are mutual inverses for every order of visiting the
   file exactly when no two live admissible records give one MAC two addresses.
   */
  lemma LoadBackedIff(s: Site, f: FileFormat, now: int)
    ensures (forall t :: Loaded(s, f, now, t) ==> Backed(t)) <==> !Conflicting(s, f, now)
  {
    if Conflicting(s, f, now) {
      var k, l, m, v, w :| Source(s, f, now, k, m, v) && Source(s, f, now, l, m, w) && v != w;
      var t := StaleLoad(s, f, now, k, l, m, v, w);
      assert Loaded(s, f, now, t) && !Backed(t);
    } else {
      forall t | Loaded(s, f, now, t) ensures Backed(t) {
        LoadedBacked(s, f, now, t);
      }
    }
  }

  // ---------- saving and loading ----------

  /** The live leases of saved tables are exactly the sources in the file. */
  lemma SavedSources(s: Site, t: Tables, now: int, k: string, m: string, v: U32)
    requires Sound(s, t) && KeysSettled(Reap(t, now))
    ensures Source(s, Save(t), now, k, m, v) <==> k == m && m in Reap(t, now).dynamic && t.dynamic[m].ip == v
  {
    SaveFacts(t);
    if k in t.dynamic {
      SavedRecord(s, t, k);
      assert t.dynamic[k].expires > now <==> k in Reap(t, now).dynamic;
    }
  }

  /**
   The record saved for a lease names its address and its expiry, and is admissible where its key is
   no other MAC's spelling.
  */
  lemma SavedRecord(s: Site, t: Tables, k: string)
    requires Sound(s, t) && k in t.dynamic
    ensures k in Save(t).leases && Save(t).leases[k].expires == t.dynamic[k].expires
    ensures ParseIp4(Save(t).leases[k].ip) == Some(t.dynamic[k].ip)
    ensures Admissible(s, Save(t), k) <==> Canon(k) != "" && Canon(k) !in s.statics
  {
    SaveFacts(t);
    PrintedParses(t.dynamic[k].ip);
  }

  /** Declines as a load reads them back: their MACs pass through `canon` once more. */
  ghost function Reread(declined: map<U32, Quarantine>): map<U32, Quarantine> {
    Tabulate(declined.Keys, v requires v in declined => Quarantine(Canon(declined[v].mac), declined[v].expiresAt))
  }

  /** The record saved for a decline is found under its address and kept exactly while the decline lives. */
  lemma SavedDecline(s: Site, t: Tables, now: int, v: U32)
    requires Sound(s, t) && v in t.declined
    ensures var k, d := IpString(v), t.declined[v];
      && ParseIp4(k) == Some(v) && k in Save(t).declined && Save(t).declined[k] == DeclinedRecord(d.mac, d.expiresAt)
      && (Kept(s, Save(t), now, k) <==> d.expiresAt > now)
  {
    SaveFacts(t);
    IpTextExact(IpString(v), v);
    PrintedParses(v);
  }

  lemma SavedUnder(t: Tables, k: string) returns (v: U32)
    requires k in Save(t).declined
    ensures v in t.declined && k == IpString(v)
  {
    SaveFacts(t);
    v := ParseDotted(k).value;
    IpTextExact(k, v);
  }

  lemma ReloadedDeclineWasLive(s: Site, t: Tables, now: int, v: U32, q: Quarantine)
    requires Sound(s, t) && DeclineOrigin(s, Save(t), now, Save(t).declined.Keys, v, q)
    ensures v in Reap(t, now).declined && q == Quarantine(Canon(t.declined[v].mac), t.declined[v].expiresAt)
  {
    var k :| k in Save(t).declined.Keys && DeclineSource(s, Save(t), now, k, v, q);
    var w := SavedUnder(t, k);
    SavedDecline(s, t, now, w);
  }

  lemma LoadedDeclinesOfSave(s: Site, t: Tables, now: int, d: map<U32, Quarantine>)
    requires Sound(s, t) && DeclinedFrom(s, Save(t), now, Save(t).declined.Keys, d)
    ensures d == Reread(Reap(t, now).declined)
  {
    var r := Reap(t, now).declined;
    forall v | v in d ensures v in r && d[v] == Reread(r)[v] {
      ReloadedDeclineWasLive(s, t, now, v, d[v]);
    }
    forall v | v in r ensures v in d {
      SavedDecline(s, t, now, v);
    }
    SameMap(d, Reread(r));
  }

  lemma ReloadedLeaseWasLive(s: Site, t: Tables, now: int, u: Tables, m: string)
    requires Consistent(s, t) && KeysSettled(Reap(t, now))
    requires Loaded(s, Save(t), now, u) && m in u.dynamic
    ensures m in Reap(t, now).dynamic && u.dynamic[m] == t.dynamic[m]
  {
    LoadedFacts(s, Save(t), now, u);
    assert LeaseOrigin(s, Save(t), now, Save(t).leases.Keys, m, u.dynamic[m]);
    var k :| Source(s, Save(t), now, k, m, u.dynamic[m].ip) && u.dynamic[m].expires == Save(t).leases[k].expires;
    SavedSources(s, t, now, k, m, u.dynamic[m].ip);
    SavedRecord(s, t, k);
  }

  lemma ReloadedAddressWasLive(s: Site, t: Tables, now: int, u: Tables, v: U32)
    requires Consistent(s, t) && KeysSettled(Reap(t, now))
    requires Loaded(s, Save(t), now, u) && v in u.byIP
    ensures v in Reap(t, now).byIP && u.byIP[v] == t.byIP[v]
  {
    LoadedFacts(s, Save(t), now, u);
    assert Origin(s, Save(t), now, Save(t).leases.Keys, u.byIP[v], v);
    var k :| Source(s, Save(t), now, k, u.byIP[v], v);
    SavedSources(s, t, now, k, u.byIP[v], v);
    ReapKeeps(s, t, now);
  }

  lemma LiveLeaseIsReloaded(s: Site, t: Tables, now: int, u: Tables, m: string)
    requires Consistent(s, t) && KeysSettled(Reap(t, now))
    requires Loaded(s, Save(t), now, u) && m in Reap(t, now).dynamic
    ensures m in u.dynamic && t.dynamic[m].ip in u.byIP
  {
    var v := t.dynamic[m].ip;
    LoadedFacts(s, Save(t), now, u);
    SavedSources(s, t, now, m, m, v);
    SaveFacts(t);
    assert AddressOf(s, Save(t), m) == v;
    ReloadedAddressWasLive(s, t, now, u, v);
  }

  lemma LoadedLeasesAreLive(s: Site, t: Tables, now: int, u: Tables)
    requires Consistent(s, t) && KeysSettled(Reap(t, now)) && Loaded(s, Save(t), now, u)
    ensures u.dynamic == Reap(t, now).dynamic
  {
    var r := Reap(t, now);
    forall m | m in u.dynamic ensures m in r.dynamic && u.dynamic[m] == r.dynamic[m] {
      ReloadedLeaseWasLive(s, t, now, u, m);
    }
    forall m | m in r.dynamic ensures m in u.dynamic {
      LiveLeaseIsReloaded(s, t, now, u, m);
    }
    SameMap(u.dynamic, r.dynamic);
  }

  lemma LoadedAddressesAreLive(s: Site, t: Tables, now: int, u: Tables)
    requires Consistent(s, t) && KeysSettled(Reap(t, now)) && Loaded(s, Save(t), now, u)
    ensures u.byIP == Reap(t, now).byIP
  {
    var r := Reap(t, now);
    forall v | v in u.byIP ensures v in r.byIP && u.byIP[v] == r.byIP[v] {
      ReloadedAddressWasLive(s, t, now, u, v);
    }
    ReapKeeps(s, t, now);
    forall v | v in r.byIP ensures v in u.byIP {
      LiveLeaseIsReloaded(s, t, now, u, r.byIP[v]);
    }
    SameMap(u.byIP, r.byIP);
  }

  /** A load of a saved file, in any order: the live entries, decline MACs read once more. */
  lemma LoadedIsReread(s: Site, t: Tables, now: int, u: Tables)
    requires Consistent(s, t) && KeysSettled(Reap(t, now)) && Loaded(s, Save(t), now, u)
    ensures u == Reap(t, now).(declined := Reread(Reap(t, now).declined))
  {
    LoadedLeasesAreLive(s, t, now, u);
    LoadedAddressesAreLive(s, t, now, u);
    LoadedFacts(s, Save(t), now, u);
    LoadedDeclinesOfSave(s, t, now, u.declined);
  }

  /**
   Reload equals reaping: what a load can make of a saved file, in any order, is
   exactly the saved state with the entries expired by then removed.
   */
  lemma ReloadIsReap(s: Site, t: Tables, now: int, u: Tables)
    requires Consistent(s, t) && Settled(Reap(t, now))
    ensures Loaded(s, Save(t), now, u) <==> u == Reap(t, now)
  {
    SameMap(Reread(Reap(t, now).declined), Reap(t, now).declined);
    if Loaded(s, Save(t), now, u) {
      LoadedIsReread(s, t, now, u);
    }
    var order := SomeOrder(Save(t).leases.Keys);
    var some := SomeLoad(s, Save(t), now, order);
    LoadedIsReread(s, t, now, some);
  }

  /**
   When reload equals reaping: exactly when the live entries carry MACs on which a second
   pass of `canon` changes nothing.  (Keys are results of `canon`, so two more passes agree.)
   */
  lemma ReloadIsReapIff(s: Site, t: Tables, now: int)
    requires Consistent(s, t)
    requires forall m | m in t.dynamic :: Canon(Canon(m)) == Canon(m)
    ensures Loaded(s, Save(t), now, Reap(t, now)) <==> Settled(Reap(t, now))
  {
    if Settled(Reap(t, now)) {
      ReloadIsReap(s, t, now, Reap(t, now));
    }
    if Loaded(s, Save(t), now, Reap(t, now)) {
      LoadedAgainDeclines(s, t, now, Reap(t, now));
      forall m | m in Reap(t, now).dynamic ensures Canon(m) == m {
        LoadedAgain(s, t, now, m);
      }
    }
  }

  lemma LoadedAgainDeclines(s: Site, t: Tables, now: int, r: Tables)
    requires Sound(s, t) && r == Reap(t, now) && Loaded(s, Save(t), now, r)
    ensures forall v | v in r.declined :: Canon(r.declined[v].mac) == r.declined[v].mac
  {
    LoadedFacts(s, Save(t), now, r);
    LoadedDeclinesOfSave(s, t, now, r.declined);
    RereadSettled(r.declined);
  }

  lemma LoadedAgain(s: Site, t: Tables, now: int, m: string)
    requires forall n | n in t.dynamic :: Canon(Canon(n)) == Canon(n)
    requires Loaded(s, Save(t), now, Reap(t, now)) && m in Reap(t, now).dynamic
    ensures Canon(m) == m
  {
    var k := LoadedUnder(s, Save(t), now, Reap(t, now), m);
    SaveFacts(t);
    assert k in t.dynamic;
  }

  lemma RereadSettled(declined: map<U32, Quarantine>)
    requires Reread(declined) == declined
    ensures forall v | v in declined :: Canon(declined[v].mac) == declined[v].mac
  {
    assert forall v | v in declined :: Reread(declined)[v].mac == declined[v].mac;
  }
}
