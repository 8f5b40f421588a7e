/** Counting addresses: what is free, when an allocation succeeds, and what each operation does to the count. */
module LeaseAccounting {
  import opened Wrappers
  import opened IpText
  import opened LeaseModel
  import opened LeaseInvariants
  import opened LeaseTable

  function PoolSize(s: Site): int {
    if s.hasPool then s.poolEnd - s.poolStart + 1 else 0
  }

  function FreeAddresses(s: Site, t: Tables, now: int): set<U32> {
    set v | v in s.Pool() && CellAt(s, t, now, v).Free?
  }

  function StaticsInPool(s: Site): set<U32> {
    s.StaticIPs() * s.Pool()
  }

  lemma {:induction false} RangeSize(lo: U32, n: nat, range: set<U32>)
    requires lo + n <= 0x1_0000_0000 && forall v: U32 :: v in range <==> lo <= v < lo + n
    ensures |range| == n
    decreases n
  {
    if n == 0 {
      assert range == {};
    } else {
      var last: U32 := lo + n - 1;
      RangeSize(lo, n - 1, range - {last});
    }
  }

  lemma PoolSizeIs(s: Site)
    requires s.Ok()
    ensures |s.Pool()| == PoolSize(s)
  {
    if s.hasPool {
      RangeSize(s.poolStart, s.poolEnd - s.poolStart + 1, s.Pool());
    } else {
      assert s.Pool() == {};
    }
  }

  /** As many addresses are leased as there are leases. */
  lemma LeasedCount(s: Site, t: Tables)
    requires Sound(s, t) && Backed(t)
    ensures |t.byIP.Keys| == |t.dynamic.Keys|
  {
    InversesMatch(t.dynamic, t.byIP);
  }

  /** Two maps that are inverse to each other have equally many entries. */
  lemma {:induction false} InversesMatch(leases: map<string, Lease>, holders: map<U32, string>)
    requires forall m | m in leases :: leases[m].ip in holders && holders[leases[m].ip] == m
    requires forall v | v in holders :: holders[v] in leases && leases[holders[v]].ip == v
    ensures |holders.Keys| == |leases.Keys|
    decreases |leases|
  {
    if leases == map[] {
      assert holders.Keys == {};
    } else {
      var m :| m in leases;
      var v := leases[m].ip;
      InversesMatch(leases - {m}, holders - {v});
      assert holders.Keys == (holders - {v}).Keys + {v};
      assert leases.Keys == (leases - {m}).Keys + {m};
    }
  }

  // ---------- any tables ----------

  /** The addresses that the scan can hand out. */
  function Spare(s: Site, r: Tables, now: int): set<U32> {
    s.Pool() - Taken(s, r, now)
  }

  lemma SizeOfTwo(a: set<U32>, b: set<U32>, all: set<U32>)
    requires a !! b && a + b <= all
    ensures |all - (a + b)| == |all| - |a| - |b|
  {
    assert |a + b| == |a| + |b|;
    assert all == (all - (a + b)) + (a + b);
  }

  lemma SpareIsRest(s: Site, r: Tables, now: int)
    requires Sound(s, r) && Reap(r, now) == r
    ensures var held := r.byIP.Keys + r.declined.Keys;
      && held !! StaticsInPool(s) && held + StaticsInPool(s) <= s.Pool()
      && Spare(s, r, now) == s.Pool() - (held + StaticsInPool(s))
  {
    ReapedIsLive(r, now);
  }

  /**
   Exact accounting of what can be handed out, for tables left by any file: an address is
   held back once, by an entry of `byIP`, stale or not, or by a live decline, or both.
   */
  lemma SpareCount(s: Site, r: Tables, now: int)
    requires s.Ok() && Sound(s, r) && Reap(r, now) == r
    ensures |Spare(s, r, now)| == PoolSize(s) - |r.byIP.Keys + r.declined.Keys| - |StaticsInPool(s)|
  {
    var held := r.byIP.Keys + r.declined.Keys;
    SpareIsRest(s, r, now);
    SizeOfTwo(held, StaticsInPool(s), s.Pool());
    PoolSizeIs(s);
  }

  lemma ScanFindsSpare(s: Site, r: Tables, now: int, m: string)
    requires s.Ok()
    ensures AllocateFresh(s, r, now, m).lease.Success? <==> Spare(s, r, now) != {}
  {
    if s.hasPool {
      FirstFreeLeast(Taken(s, r, now), s.poolStart, s.poolEnd);
      match FirstFree(Taken(s, r, now), s.poolStart, s.poolEnd)
      case None => assert Spare(s, r, now) == {};
      case Some(v) => assert v in Spare(s, r, now);
    } else {
      assert s.Pool() == {};
    }
  }

  /**
   Completeness: a MAC with neither static binding nor live lease is given an address
   exactly when the pool is larger than the addresses with an entry or a live decline and
   the static ones together.
   */
  lemma AllocateSucceedsIff(s: Site, t: Tables, now: int, m: string)
    requires s.Ok() && Sound(s, t) && m != "" && m !in s.statics && m !in Reap(t, now).dynamic
    ensures var r := Reap(t, now);
      Allocate(s, t, now, m).lease.Success? <==> PoolSize(s) > |r.byIP.Keys + r.declined.Keys| + |StaticsInPool(s)|
  {
    var r := Reap(t, now);
    assert Sound(s, r) && Reap(r, now) == r by {
      ReapKeeps(s, t, now);
      ReapTwice(t, now);
    }
    SpareCount(s, r, now);
    ScanFindsSpare(s, r, now, m);
    NonEmpty(Spare(s, r, now));
  }

  /** No reaping gives back the address of a stale entry. */
  lemma StaleIsLost(s: Site, t: Tables, now: int, v: U32)
    requires Sound(s, t) && v in t.byIP && !(t.byIP[v] in t.dynamic && t.dynamic[t.byIP[v]].ip == v)
    ensures var r := Reap(t, now); v in r.byIP && r.byIP[v] == t.byIP[v] && v !in Spare(s, r, now)
  {
    forall m | m in Expired(t, now) ensures t.dynamic[m].ip != v {
      assert t.byIP[t.dynamic[m].ip] == m;
    }
  }

  // ---------- tables without stale entries ----------

  /** Then what can be handed out is what the table shows as free. */
  lemma FreeIsSpare(s: Site, r: Tables, now: int)
    requires Consistent(s, r) && Reap(r, now) == r
    ensures FreeAddresses(s, r, now) == Spare(s, r, now)
  {
    ReapedIsLive(r, now);
    forall v | v in s.Pool() ensures v in FreeAddresses(s, r, now) <==> v !in Taken(s, r, now) {
      FreeIff(s, r, now, v);
    }
  }

  /** Exact accounting: after reaping, every pool address is free, leased, declined or static, and in one way only. */
  lemma FreeCount(s: Site, r: Tables, now: int)
    requires s.Ok() && Consistent(s, r) && Reap(r, now) == r
    ensures |FreeAddresses(s, r, now)| == PoolSize(s) - |r.dynamic| - |r.declined| - |StaticsInPool(s)|
  {
    FreeIsSpare(s, r, now);
    SpareCount(s, r, now);
    LeasedCount(s, r);
    assert |r.byIP.Keys + r.declined.Keys| == |r.byIP.Keys| + |r.declined.Keys|;
  }

  lemma NonEmpty(a: set<U32>)
    ensures a != {} <==> |a| > 0
  {
  }

  lemma OneElement(a: set<U32>, b: set<U32>, v: U32)
    requires a - {v} == b - {v}
    ensures |b| - |a| == (if v in b then 1 else 0) - (if v in a then 1 else 0)
  {
    var rest := a - {v};
    assert a == rest + (if v in a then {v} else {});
    assert b == rest + (if v in b then {v} else {});
  }

  /** Two tables that differ in one cell differ in the count by what that cell does. */
  lemma OneCell(s: Site, t: Tables, u: Tables, now: int, v: U32)
    requires v in s.Pool() && forall w | w in s.Pool() && w != v :: CellAt(s, u, now, w) == CellAt(s, t, now, w)
    ensures |FreeAddresses(s, u, now)| - |FreeAddresses(s, t, now)| ==
            (if CellAt(s, u, now, v).Free? then 1 else 0) - (if CellAt(s, t, now, v).Free? then 1 else 0)
  {
    var a, b := FreeAddresses(s, t, now), FreeAddresses(s, u, now);
    assert a - {v} == b - {v};
    assert v in a <==> CellAt(s, t, now, v).Free?;
    assert v in b <==> CellAt(s, u, now, v).Free?;
    OneElement(a, b, v);
  }

  /** Declining a leased address conserves the count; declining a free one takes it away. */
  lemma DeclineCount(s: Site, t: Tables, now: int, m: string, v: U32)
    requires s.Ok() && Consistent(s, t) && v in s.Pool()
    ensures |FreeAddresses(s, Decline(s, t, now, m, v), now)| ==
            |FreeAddresses(s, t, now)| - (if CellAt(s, t, now, v).Free? then 1 else 0)
  {
    var u := Decline(s, t, now, m, v);
    forall w | w in s.Pool() && w != v ensures CellAt(s, u, now, w) == CellAt(s, t, now, w) {
      DeclinedCell(s, t, now, m, v, w);
    }
    OneCell(s, t, u, now, v);
    assert !CellAt(s, u, now, v).Free?;
  }

  /** Releasing a live lease gives one address back; any other release changes nothing. */
  lemma ReleaseCount(s: Site, t: Tables, now: int, m: string, ip: Option<U32>)
    requires Consistent(s, t)
    ensures |FreeAddresses(s, Release(t, m, ip), now)| ==
            |FreeAddresses(s, t, now)| + (if Releases(t, m, ip) && t.dynamic[m].expires > now then 1 else 0)
  {
    if Releases(t, m, ip) {
      var u, v := Release(t, m, ip), t.dynamic[m].ip;
      forall w | w in s.Pool() ensures CellAt(s, u, now, w) == if w == v then Free else CellAt(s, t, now, w) {
        ReleasedCell(s, t, now, m, ip, w);
      }
      OneCell(s, t, u, now, v);
    }
  }
}
