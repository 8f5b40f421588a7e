/**
 Exactly which lease files a server may start from.  The files it writes itself are safe;
 from every file that is not, some run acknowledges one address to two MACs at once.
 */
module LeaseFiles {
  import opened Wrappers
  import opened MacText
  import opened IpText
  import opened LeaseModel
  import opened LeaseInvariants
  import opened LeaseSafety
  import opened LeaseRuns
  import opened LeaseLimits
  import opened LeaseSharing

  // ---------- two live records for one MAC ----------

  /** A moment by which every lease has run out. */
  lemma {:induction false} LeasesEnd(leases: map<string, Lease>, now: int) returns (late: int)
    ensures late >= now && forall m | m in leases :: leases[m].expires <= late
  {
    late := now;
    if leases != map[] {
      var m :| m in leases;
      var rest := LeasesEnd(leases - {m}, now);
      late := if leases[m].expires > rest then leases[m].expires else rest;
      assert forall n | n in leases :: n == m || n in leases - {m};
    }
  }

  lemma {:induction false} DeclinesEnd(declined: map<U32, Quarantine>, now: int) returns (late: int)
    ensures late >= now && forall v | v in declined :: declined[v].expiresAt <= late
  {
    late := now;
    if declined != map[] {
      var v :| v in declined;
      var rest := DeclinesEnd(declined - {v}, now);
      late := if declined[v].expiresAt > rest then declined[v].expiresAt else rest;
      assert forall x | x in declined :: x == v || x in declined - {v};
    }
  }

  /** When everything has run out only stale entries are left: that of the MAC for `v`, none for the address it held. */
  lemma StaleIsLeft(s: Site, t: Tables, late: int, m: string, v: U32)
    requires Sound(s, t) && Stale(t, m, v)
    requires forall n | n in t.dynamic :: t.dynamic[n].expires <= late
    requires forall x | x in t.declined :: t.declined[x].expiresAt <= late
    ensures var r := Reap(t, late);
      OnlyEntries(s, r) && v in r.byIP && r.byIP[v] == m && Open(s, r, t.dynamic[m].ip)
  {
    var r := Reap(t, late);
    assert r.dynamic.Keys == {} && r.declined.Keys == {};
    forall n | n in Expired(t, late) ensures t.dynamic[n].ip != v {
      assert t.byIP[t.dynamic[n].ip] == n;
    }
    assert m in Expired(t, late);
  }

  /** Tables without lease and decline. */
  ghost predicate OnlyEntries(s: Site, r: Tables) {
    r.dynamic == map[] && r.declined == map[] && forall x | x in r.byIP :: s.InPool(x) && x !in s.StaticIPs()
  }

  /** The MAC with its new address evicted by a decline of the stale one. */
  function Evicted(s: Site, r: Tables, now: int, m: string, v: U32, y: U32): Tables {
    Decline(s, Bind(s, r, m, y, now + s.leaseTime), now, Canon(""), v)
  }

  ghost predicate LeavesUnclaimed(s: Site, u: Tables, y: U32) {
    Sound(s, u) && Unclaimed(s, u, y)
  }

  /** Nobody claims the new address then. */
  lemma EvictedIsUnclaimed(s: Site, r: Tables, now: int, m: string, v: U32)
    requires s.Ok() && OnlyEntries(s, r) && v in r.byIP && r.byIP[v] == m && m != "" && m !in s.statics
    ensures forall y | Open(s, r, y) :: LeavesUnclaimed(s, Evicted(s, r, now, m, v, y), y)
  {
    forall y | Open(s, r, y) ensures LeavesUnclaimed(s, Evicted(s, r, now, m, v, y), y) {
      var b := Bind(s, r, m, y, now + s.leaseTime);
      BindKeeps(s, r, m, y, now + s.leaseTime);
      DeclineKeeps(s, b, now, Canon(""), v);
    }
  }

  /**
   A file with a clash: after a start all leases run out, and a stale entry of the MAC is left.
   The MAC is served another address; a decline of the stale one evicts it from that, and
   after a restart the address is acknowledged to someone else.
   */
  lemma ClashShares(s: Site, f: FileFormat, now: int, k: string, l: string, m: string, v: U32, w: U32)
    requires s.Ok() && s.leaseFile != "" && Clash(s, f, now, k, l, m, v, w)
    ensures Sharing(s, Down(f, now))
  {
    var t := StaleLoad(s, f, now, k, l, m, v, w);
    LoadedSound(s, f, now, t);
    var early := LeasesEnd(t.dynamic, now);
    var late := DeclinesEnd(t.declined, early);
    StaleIsLeft(s, t, late, m, v);
    StartsAndWaits(s, f, now, t, late);
    StaleShares(s, f, now, t, late, m, v, Reap(t, late), t.dynamic[m].ip);
  }

  lemma StartsAndWaits(s: Site, f: FileFormat, now: int, t: Tables, late: int)
    requires s.Ok() && s.leaseFile != "" && Loaded(s, f, now, t) && now <= late
    ensures Leads(s, Down(f, now), [Start(true), Wait(late)], Up(f, late, t))
  {
    StartLoads(s, f, now, t);
    Waited(s, Up(f, now, t), late);
    Compose(s, Down(f, now), [Start(true)], Up(f, now, t), [Wait(late)], Up(f, late, t));
    assert [Start(true)] + [Wait(late)] == [Start(true), Wait(late)];
  }

  lemma StaleShares(s: Site, f: FileFormat, now: int, t: Tables, late: int, m: string, v: U32, r: Tables, w: U32)
    requires s.Ok() && s.leaseFile != "" && m != "" && m !in s.statics && Canon(m) == m
    requires r == Reap(t, late) && OnlyEntries(s, r)
    requires v in r.byIP && r.byIP[v] == m && Open(s, r, w)
    requires Leads(s, Down(f, now), [Start(true), Wait(late)], Up(f, late, t))
    ensures Sharing(s, Down(f, now))
  {
    EvictedIsUnclaimed(s, r, late, m, v);
    var y, b := ServedAnew(s, f, late, t, m, r, w);
    var u := Evicted(s, r, late, m, v, y);
    DeclineServed(s, Save(b), late, b, v, u);
    EvictionShares(s, f, now, late, t, m, v, y, b, u);
  }

  /** A MAC that holds nothing once leases are reaped is given an open address. */
  lemma ServedAnew(s: Site, f: FileFormat, now: int, t: Tables, m: string, r: Tables, v: U32) returns (y: U32, b: Tables)
    requires s.Ok() && s.leaseFile != "" && r == Reap(t, now) && Open(s, r, v) && m !in r.dynamic
    requires m != "" && Canon(m) == m && m !in s.statics
    ensures Open(s, r, y) && b == Bind(s, r, m, y, now + s.leaseTime)
    ensures Leads(s, Up(f, now, t), [AllocateFor(m, true)], Up(Save(b), now, b))
    ensures Acked(s, Up(f, now, t), AllocateFor(m, true)) == Some(Grant(m, y, now + s.leaseTime))
  {
    y := AllocatedAnew(s, now, t, m, r, v);
    b := Bind(s, r, m, y, now + s.leaseTime);
    AllocationLeads(s, f, now, t, m, b, s.Dynamic(m, y, now + s.leaseTime));
    AnewAcked(s, f, now, t, m, b, y);
  }

  lemma AnewAcked(s: Site, f: FileFormat, now: int, t: Tables, m: string, b: Tables, y: U32)
    requires s.Ok() && Canon(m) == m && m !in s.statics
    requires Allocate(s, t, now, m) == Allocation(b, Success(s.Dynamic(m, y, now + s.leaseTime)))
    ensures Acked(s, Up(f, now, t), AllocateFor(m, true)) == Some(Grant(m, y, now + s.leaseTime))
  {
    AllocationAcks(s, f, now, t, m, b, s.Dynamic(m, y, now + s.leaseTime));
  }

  lemma AllocatedAnew(s: Site, now: int, t: Tables, m: string, r: Tables, v: U32) returns (y: U32)
    requires s.Ok() && r == Reap(t, now) && Open(s, r, v) && m !in r.dynamic && m != "" && m !in s.statics
    ensures Open(s, r, y)
    ensures var until := now + s.leaseTime;
      Allocate(s, t, now, m) == Allocation(Bind(s, r, m, y, until), Success(s.Dynamic(m, y, until)))
  {
    ReapIsReaped(t, now);
    AllocateReaps(s, t, now, m);
    y := NewcomerAllocated(s, r, now, m, v);
  }

  lemma EvictionShares(s: Site, f: FileFormat, now: int, late: int, t: Tables, m: string, v: U32, y: U32, b: Tables, u: Tables)
    requires s.Ok() && s.leaseFile != "" && Canon(m) == m && y != v
    requires Leads(s, Down(f, now), [Start(true), Wait(late)], Up(f, late, t))
    requires Leads(s, Up(f, late, t), [AllocateFor(m, true)], Up(Save(b), late, b))
    requires Leads(s, Up(Save(b), late, b), [DeclineBy("", Some(v), true)], Up(Save(u), late, u))
    requires Acked(s, Up(f, late, t), AllocateFor(m, true)) == Some(Grant(m, y, late + s.leaseTime))
    requires LeavesUnclaimed(s, u, y)
    ensures Sharing(s, Down(f, now))
  {
    var e, decline := AllocateFor(m, true), DeclineBy("", Some(v), true);
    CanonIdempotentIff(m);
    Compose(s, Up(f, late, t), [e], Up(Save(b), late, b), [decline], Up(Save(u), late, u));
    RestartShares(s, Down(f, now), [Start(true), Wait(late)], Up(f, late, t), e, [decline], u, late,
                  Grant(m, y, late + s.leaseTime));
  }

  /** Two live leases with one second form, once saved, are two live records for one MAC at the next start. */
  lemma SavedClashShares(s: Site, a: World, pre: seq<Event>, t: Tables, now: int, n: string, p: string)
    requires s.Ok() && s.leaseFile != "" && Leads(s, a, pre, Up(Save(t), now, t)) && AllProper(pre) && Sound(s, t)
    requires LiveIn(t, now, n) && LiveIn(t, now, p) && n != p
    requires Canon(n) == Canon(p) == Canon(Canon(n)) && Canon(n) != "" && Canon(n) !in s.statics
    ensures Sharing(s, a)
  {
    SavedClash(s, t, now, n, p);
    ClashShares(s, Save(t), now, n, p, Canon(n), t.dynamic[n].ip, t.dynamic[p].ip);
    CrashShares(s, a, pre, Save(t), now, t);
  }

  lemma CrashShares(s: Site, a: World, pre: seq<Event>, f: FileFormat, now: int, t: Tables)
    requires s.Ok() && Leads(s, a, pre, Up(f, now, t)) && AllProper(pre) && Sharing(s, Down(f, now))
    ensures Sharing(s, a)
  {
    OneStep(s, Up(f, now, t), Crash, Down(f, now));
    Compose(s, a, pre, Up(f, now, t), [Crash], Down(f, now));
    SharingAfter(s, a, pre + [Crash], Down(f, now));
  }

  lemma SavedClash(s: Site, t: Tables, now: int, n: string, p: string)
    requires Sound(s, t) && LiveIn(t, now, n) && LiveIn(t, now, p) && n != p
    requires Canon(n) == Canon(p) == Canon(Canon(n)) && Canon(n) != "" && Canon(n) !in s.statics
    ensures Clash(s, Save(t), now, n, p, Canon(n), t.dynamic[n].ip, t.dynamic[p].ip)
  {
    SavedRecord(s, t, n);
    SavedRecord(s, t, p);
    SoundUnique(s, t, n, p);
  }

  // ---------- loads that take up given records ----------

  /** Records whose addresses are taken, and those that are not live, change nothing. */
  lemma {:induction false} BlockedTail(s: Site, f: FileFormat, now: int, order: seq<string>, rest: seq<string>)
    requires forall x | x in rest && Live(s, f, now, x) :: AddressOf(s, f, x) in LoadLeases(s, f, now, order).byIP
    ensures LoadLeases(s, f, now, order + rest) == LoadLeases(s, f, now, order)
  {
    if rest == [] {
      assert order + rest == order;
    } else {
      var n := |rest| - 1;
      BlockedTail(s, f, now, order, rest[..n]);
      var all := order + rest;
      assert all[..|all| - 1] == order + rest[..n] && all[|all| - 1] == rest[n];
    }
  }

  /** What takes an address is a live record for it. */
  lemma TakenByOne(s: Site, f: FileFormat, now: int, order: seq<string>, v: U32)
    ensures v in LoadLeases(s, f, now, order).byIP ==> exists x :: x in order && Names(s, f, now, x, v)
  {
    var t := LoadLeases(s, f, now, order);
    LoadLeasesFacts(s, f, now, order);
    if v in t.byIP {
      assert Origin(s, f, now, (set x | x in order), t.byIP[v], v);
      var k :| k in order && Source(s, f, now, k, t.byIP[v], v);
      assert Names(s, f, now, k, v);
    }
  }

  /** The lease that the record makes. */
  function LeaseOf(s: Site, f: FileFormat, now: int, k: string): Lease
    requires Live(s, f, now, k)
  {
    s.Dynamic(Canon(k), AddressOf(s, f, k), f.leases[k].expires)
  }

  /** The record is taken up. */
  ghost predicate TakenUp(s: Site, f: FileFormat, now: int, k: string, t: Tables)
    requires Live(s, f, now, k)
  {
    && Canon(k) in t.dynamic && t.dynamic[Canon(k)] == LeaseOf(s, f, now, k)
    && AddressOf(s, f, k) in t.byIP && t.byIP[AddressOf(s, f, k)] == Canon(k)
  }

  lemma TakesUp(s: Site, f: FileFormat, now: int, order: seq<string>, k: string)
    requires Live(s, f, now, k) && AddressOf(s, f, k) !in LoadLeases(s, f, now, order).byIP
    ensures TakenUp(s, f, now, k, LoadLeases(s, f, now, order + [k]))
    ensures LoadLeases(s, f, now, order + [k]) ==
            Bind(s, LoadLeases(s, f, now, order), Canon(k), AddressOf(s, f, k), f.leases[k].expires)
  {
    var own := order + [k];
    assert own[..|own| - 1] == order && own[|own| - 1] == k;
  }

  lemma ThreeParts(a: seq<string>, b: seq<string>, c: seq<string>, x: set<string>, y: set<string>, keys: set<string>)
    requires Enumerates(a, x) && Enumerates(b, y) && Enumerates(c, keys - x - y) && x !! y && x <= keys && y <= keys
    ensures Enumerates(a + b + c, keys)
  {
    var all := a + b + c;
    forall k ensures k in keys <==> k in all {
      assert k in all <==> k in a || k in b || k in c;
    }
    forall i, j | 0 <= i < j < |all| ensures all[i] != all[j] {
      PartOf(a, b, c, i);
      PartOf(a, b, c, j);
    }
  }

  lemma PartOf(a: seq<string>, b: seq<string>, c: seq<string>, i: nat)
    requires i < |a + b + c|
    ensures var all := a + b + c;
      if i < |a| then all[i] == a[i] && all[i] in a
      else if i < |a| + |b| then all[i] == b[i - |a|] && all[i] in b
      else all[i] == c[i - |a| - |b|] && all[i] in c
  {
  }

  predicate Apart(s: Site, f: FileFormat, now: int, k: string, l: string) {
    Live(s, f, now, k) && Live(s, f, now, l) && Canon(k) != Canon(l) && AddressOf(s, f, k) != AddressOf(s, f, l)
  }

  /** Live records for different MACs and different addresses. */
  ghost predicate Distinct(s: Site, f: FileFormat, now: int, picks: seq<string>) {
    && (forall k | k in picks :: Live(s, f, now, k))
    && (forall i, j | 0 <= i < j < |picks| :: Apart(s, f, now, picks[i], picks[j]))
  }

  ghost predicate AllTakenUp(s: Site, f: FileFormat, now: int, picks: seq<string>, t: Tables) {
    forall k | k in picks && Live(s, f, now, k) :: TakenUp(s, f, now, k, t)
  }

  /** The record may take the address of the other. */
  predicate Rival(s: Site, f: FileFormat, now: int, x: string, k: string) {
    Live(s, f, now, k) && Names(s, f, now, x, AddressOf(s, f, k))
  }

  ghost predicate NoRivals(s: Site, f: FileFormat, now: int, first: seq<string>, picks: seq<string>) {
    forall x, k | x in first && k in picks :: !Rival(s, f, now, x, k)
  }

  lemma TakenUpStays(s: Site, f: FileFormat, now: int, t: Tables, p: string, k: string)
    requires Apart(s, f, now, p, k) && TakenUp(s, f, now, p, t)
    ensures TakenUp(s, f, now, p, Bind(s, t, Canon(k), AddressOf(s, f, k), f.leases[k].expires))
  {
  }

  /** One pick more. */
  lemma OneMoreTakenUp(s: Site, f: FileFormat, now: int, order: seq<string>, before: seq<string>, k: string)
    requires AllTakenUp(s, f, now, before, LoadLeases(s, f, now, order))
    requires Live(s, f, now, k) && NoRivals(s, f, now, order, [k]) && forall p | p in before :: Apart(s, f, now, p, k)
    ensures AllTakenUp(s, f, now, before + [k], LoadLeases(s, f, now, order + [k]))
  {
    assert k in [k];
    assert forall x | x in order :: !Rival(s, f, now, x, k);
    TakenByOne(s, f, now, order, AddressOf(s, f, k));
    TakesUp(s, f, now, order, k);
    forall p | p in before ensures TakenUp(s, f, now, p, LoadLeases(s, f, now, order + [k])) {
      TakenUpStays(s, f, now, LoadLeases(s, f, now, order), p, k);
    }
  }

  /** After records that are no rivals the picks are all taken up. */
  lemma {:induction false} PicksTakenUp(s: Site, f: FileFormat, now: int, first: seq<string>, picks: seq<string>)
    requires Distinct(s, f, now, picks) && NoRivals(s, f, now, first, picks)
    ensures AllTakenUp(s, f, now, picks, LoadLeases(s, f, now, first + picks))
  {
    if picks != [] {
      var n := |picks| - 1;
      var before, k := picks[..n], picks[n];
      assert picks == before + [k];
      LastApart(s, f, now, picks, before, k);
      NoRivalsSplit(s, f, now, first, before, k);
      PicksTakenUp(s, f, now, first, before);
      OneMoreTakenUp(s, f, now, first + before, before, k);
      assert first + picks == first + before + [k];
    }
  }

  lemma LastApart(s: Site, f: FileFormat, now: int, picks: seq<string>, before: seq<string>, k: string)
    requires Distinct(s, f, now, picks) && picks == before + [k]
    ensures Distinct(s, f, now, before) && Live(s, f, now, k) && forall p | p in before :: Apart(s, f, now, p, k)
  {
    assert picks[|before|] == k;
    forall p | p in before ensures Apart(s, f, now, p, k) {
      var i :| 0 <= i < |before| && before[i] == p;
      assert Apart(s, f, now, picks[i], picks[|before|]);
    }
    forall i, j | 0 <= i < j < |before| ensures Apart(s, f, now, before[i], before[j]) {
      assert Apart(s, f, now, picks[i], picks[j]);
    }
  }

  lemma NoRivalsSplit(s: Site, f: FileFormat, now: int, first: seq<string>, before: seq<string>, k: string)
    requires NoRivals(s, f, now, first, before + [k]) && forall p | p in before :: Apart(s, f, now, p, k)
    ensures NoRivals(s, f, now, first, before) && NoRivals(s, f, now, first + before, [k])
  {
    assert k in before + [k];
    forall x, p | x in first && p in before ensures !Rival(s, f, now, x, p) {
      assert p in before + [k];
    }
    forall x, p | x in first + before && p in [k] ensures !Rival(s, f, now, x, p) {
      assert x in first || x in before;
    }
  }

  /** Everything else, then the picks, then their rivals: the picks are taken up. */
  lemma PickOrder(s: Site, f: FileFormat, now: int, picks: seq<string>) returns (order: seq<string>)
    requires Distinct(s, f, now, picks)
    ensures Enumerates(order, f.leases.Keys) && AllTakenUp(s, f, now, picks, LoadLeases(s, f, now, order))
  {
    var taken := set x | x in picks;
    var others := set x | x in f.leases && x !in picks && forall k | k in picks :: !Rival(s, f, now, x, k);
    var first := SomeOrder(others);
    var rest := SomeOrder(f.leases.Keys - others - taken);
    PicksTakenUp(s, f, now, first, picks);
    RivalsBlocked(s, f, now, first + picks, picks, rest, taken, others);
    order := first + picks + rest;
    PicksEnumerate(s, f, now, picks, taken);
    ThreeParts(first, picks, rest, others, taken, f.leases.Keys);
  }

  lemma PicksEnumerate(s: Site, f: FileFormat, now: int, picks: seq<string>, taken: set<string>)
    requires Distinct(s, f, now, picks) && taken == set x | x in picks
    ensures Enumerates(picks, taken) && taken <= f.leases.Keys
  {
    forall i, j | 0 <= i < j < |picks| ensures picks[i] != picks[j] {
      assert Apart(s, f, now, picks[i], picks[j]);
    }
  }

  lemma RivalsBlocked(s: Site, f: FileFormat, now: int, order: seq<string>, picks: seq<string>, rest: seq<string>,
                      taken: set<string>, others: set<string>)
    requires AllTakenUp(s, f, now, picks, LoadLeases(s, f, now, order))
    requires taken == (set x | x in picks) && Enumerates(rest, f.leases.Keys - others - taken)
    requires others == set x | x in f.leases && x !in picks && forall k | k in picks :: !Rival(s, f, now, x, k)
    ensures LoadLeases(s, f, now, order + rest) == LoadLeases(s, f, now, order)
  {
    forall x | x in rest && Live(s, f, now, x) ensures AddressOf(s, f, x) in LoadLeases(s, f, now, order).byIP {
      assert x in f.leases.Keys - others - taken;
      var k :| k in picks && Rival(s, f, now, x, k);
      assert TakenUp(s, f, now, k, LoadLeases(s, f, now, order));
    }
    BlockedTail(s, f, now, order, rest);
  }

  /** A load that takes the record up. */
  lemma OwnOrder(s: Site, f: FileFormat, now: int, k: string) returns (order: seq<string>)
    requires Live(s, f, now, k)
    ensures Enumerates(order, f.leases.Keys) && TakenUp(s, f, now, k, LoadLeases(s, f, now, order))
  {
    order := PickOrder(s, f, now, [k]);
    assert k in [k];
  }

  /** The same for two records with different MACs and addresses. */
  lemma PairOrder(s: Site, f: FileFormat, now: int, k: string, l: string) returns (order: seq<string>)
    requires Apart(s, f, now, k, l)
    ensures Enumerates(order, f.leases.Keys)
    ensures TakenUp(s, f, now, k, LoadLeases(s, f, now, order)) && TakenUp(s, f, now, l, LoadLeases(s, f, now, order))
  {
    var picks := [k, l];
    assert k in picks && l in picks && picks[0] == k && picks[1] == l;
    order := PickOrder(s, f, now, picks);
  }

  lemma TripleOrder(s: Site, f: FileFormat, now: int, k: string, l: string, y: string) returns (order: seq<string>)
    requires Apart(s, f, now, k, l) && Apart(s, f, now, k, y) && Apart(s, f, now, l, y)
    ensures Enumerates(order, f.leases.Keys)
    ensures TakenUp(s, f, now, k, LoadLeases(s, f, now, order)) && TakenUp(s, f, now, l, LoadLeases(s, f, now, order))
    ensures TakenUp(s, f, now, y, LoadLeases(s, f, now, order))
  {
    var picks := [k, l, y];
    assert k in picks && l in picks && y in picks && picks[0] == k && picks[1] == l && picks[2] == y;
    order := PickOrder(s, f, now, picks);
  }

  // ---------- a live record under a padded key ----------

  /** The two forms of a padded spelling. */
  lemma PaddedForms(k: string)
    requires PaddedForeignSpelling(k)
    ensures var n, m := Canon(k), Canon(Canon(k)); n != m && Canon(m) == m && m != "" && !PaddedForeignSpelling(m)
  {
    CanonIdempotentIff(k);
    CanonSettles(k);
    CanonIdempotentIff(Canon(Canon(k)));
    PaddedSecondForm(k);
  }

  /** An address that no live record names is not taken after a load. */
  lemma UnnamedIsFree(s: Site, f: FileFormat, now: int, t: Tables, x: U32)
    requires Loaded(s, f, now, t) && forall l :: !Names(s, f, now, l, x)
    ensures x !in t.byIP
  {
    EntryNamed(s, f, now, t, x);
  }

  lemma EntryNamed(s: Site, f: FileFormat, now: int, t: Tables, x: U32)
    requires Loaded(s, f, now, t)
    ensures x in t.byIP ==> exists l :: Names(s, f, now, l, x)
  {
    if x in t.byIP {
      var d := EntryOrigin(s, f, now, t, x);
      assert Names(s, f, now, d, x);
    }
  }

  /** Neither of the MACs has the entry of the address. */
  predicate NeitherHas(t: Tables, n: string, p: string, x: U32) {
    x in t.byIP ==> t.byIP[x] != n && t.byIP[x] != p
  }

  /** The tables hold the leases of both records. */
  ghost predicate Both(s: Site, f: FileFormat, at: int, t: Tables, n: string, p: string) {
    Loaded(s, f, at, t) && Sound(s, t) && LiveIn(t, at, n) && LiveIn(t, at, p)
  }

  lemma PairLoad(s: Site, f: FileFormat, at: int, k: string, l: string) returns (t: Tables)
    requires Apart(s, f, at, k, l)
    ensures Both(s, f, at, t, Canon(k), Canon(l))
  {
    var order := PairOrder(s, f, at, k, l);
    t := SomeLoad(s, f, at, order);
    LoadedSound(s, f, at, t);
  }

  /** With a third record whose MAC then has the entry of its address. */
  lemma TripleLoad(s: Site, f: FileFormat, at: int, k: string, l: string, y: string) returns (t: Tables)
    requires Apart(s, f, at, k, l) && Apart(s, f, at, k, y) && Apart(s, f, at, l, y)
    ensures Both(s, f, at, t, Canon(k), Canon(l)) && NeitherHas(t, Canon(k), Canon(l), AddressOf(s, f, y))
  {
    var order := TripleOrder(s, f, at, k, l, y);
    t := SomeLoad(s, f, at, order);
    LoadedSound(s, f, at, t);
  }

  lemma ForeignLoad(s: Site, f: FileFormat, at: int, k: string, l: string, x: U32) returns (t: Tables)
    requires Apart(s, f, at, k, l) && Foreign(s, f, at, k, l, x)
    ensures Both(s, f, at, t, Canon(k), Canon(l)) && NeitherHas(t, Canon(k), Canon(l), x)
  {
    if forall y :: !Names(s, f, at, y, x) {
      t := PairLoad(s, f, at, k, l);
      UnnamedIsFree(s, f, at, t, x);
    } else {
      var y :| Names(s, f, at, y, x) && Canon(y) != Canon(k) && Canon(y) != Canon(l);
      assert Apart(s, f, at, k, y) && Apart(s, f, at, l, y);
      t := TripleLoad(s, f, at, k, l, y);
    }
  }

  lemma DeclineIsKept(s: Site, t: Tables, now: int, x: U32, u: Tables, n: string, p: string)
    requires Sound(s, t) && NeitherHas(t, n, p, x) && LiveIn(t, now, n) && LiveIn(t, now, p)
    requires u == Decline(s, t, now, Canon(""), x)
    ensures Sound(s, u) && LiveIn(u, now, n) && LiveIn(u, now, p)
  {
    DeclineKeeps(s, t, now, Canon(""), x);
  }

  lemma ReadsAndDeclines(s: Site, f: FileFormat, now: int, at: int, t: Tables, x: U32, u: Tables)
    requires s.Ok() && s.leaseFile != "" && now <= at && Loaded(s, f, at, t) && u == Decline(s, t, at, Canon(""), x)
    ensures var pre := [Wait(at), Start(true)] + [DeclineBy("", Some(x), true)];
      Leads(s, Down(f, now), pre, Up(Save(u), at, u)) && AllProper(pre)
  {
    StartsAndReads(s, f, now, at, t);
    DeclineServed(s, f, at, t, x, u);
    Compose(s, Down(f, now), [Wait(at), Start(true)], Up(f, at, t), [DeclineBy("", Some(x), true)], Up(Save(u), at, u));
  }

  /** Two live leases with one second form, and a decline that is saved and evicts neither. */
  lemma DeclineShares(s: Site, f: FileFormat, now: int, at: int, t: Tables, n: string, p: string, x: U32)
    requires s.Ok() && s.leaseFile != "" && now <= at && Both(s, f, at, t, n, p) && NeitherHas(t, n, p, x) && n != p
    requires Canon(n) == Canon(p) == Canon(Canon(n)) && Canon(n) != "" && Canon(n) !in s.statics
    ensures Sharing(s, Down(f, now))
  {
    var u := Decline(s, t, at, Canon(""), x);
    ReadsAndDeclines(s, f, now, at, t, x, u);
    DeclineIsKept(s, t, at, x, u, n, p);
    SavedClashShares(s, Down(f, now), [Wait(at), Start(true)] + [DeclineBy("", Some(x), true)], u, at, n, p);
  }

  /** The same when one of the two can renew its lease. */
  lemma RenewalShares(s: Site, f: FileFormat, now: int, at: int, t: Tables, n: string, m: string)
    requires s.Ok() && s.leaseFile != "" && now <= at && Both(s, f, at, t, n, m) && n != m
    requires Canon(n) == m == Canon(m) && m != "" && m !in s.statics && !PaddedForeignSpelling(m)
    ensures Sharing(s, Down(f, now))
  {
    StartsAndReads(s, f, now, at, t);
    LoadedIsReaped(s, f, at, t);
    ReapedStays(t, at);
    var b := ServedAgain(s, f, at, t, t, m);
    RenewedBeside(s, t, at, n, m);
    BesideShares(s, Down(f, now), [Wait(at), Start(true)], f, at, t, n, m, b);
  }

  /** A padded record and its twin are both taken up; a save then leaves two records for one MAC. */
  lemma TwinsShare(s: Site, f: FileFormat, now: int, k: string, l: string, at: int)
    requires s.Ok() && s.leaseFile != "" && PaddedRecord(s, f, now, k) && Twinned(s, f, now, k, l, at)
    ensures Sharing(s, Down(f, now))
  {
    PaddedForms(k);
    assert Apart(s, f, at, k, l);
    if Canon(Canon(l)) == Canon(l) {
      var t := PairLoad(s, f, at, k, l);
      RenewalShares(s, f, now, at, t, Canon(k), Canon(l));
    } else {
      var x :| Foreign(s, f, at, k, l, x);
      var t := ForeignLoad(s, f, at, k, l, x);
      DeclineShares(s, f, now, at, t, Canon(k), Canon(l), x);
    }
  }

  // ---------- room for a second address ----------

  /** A visiting order of the declines under which one before `u`, if any, ends in time where the file lets it. */
  lemma DeclineOrder(s: Site, f: FileFormat, at: int, u: U32, until: int) returns (texts: seq<string>)
    requires Undeclinable(s, f, at, u, until)
    ensures Enumerates(texts, f.declined.Keys)
    ensures var d := LoadDeclines(s, f, at, texts); u in d ==> d[u].expiresAt < until || at + s.leaseTime < until
  {
    if l :| Keeps(s, f, at, l, u) && f.declined[l].expiresAt < until {
      var rest := SomeOrder(f.declined.Keys - {l});
      texts := rest + [l];
      assert texts[..|texts| - 1] == rest && texts[|texts| - 1] == l;
      assert Enumerates(texts, f.declined.Keys);
    } else {
      texts := SomeOrder(f.declined.Keys);
      DeclinedByOne(s, f, at, texts, u);
    }
  }

  lemma DeclinedByOne(s: Site, f: FileFormat, at: int, texts: seq<string>, u: U32)
    ensures u in LoadDeclines(s, f, at, texts) ==> exists l :: Keeps(s, f, at, l, u)
  {
    var d := LoadDeclines(s, f, at, texts);
    LoadDeclinesFacts(s, f, at, texts);
    if u in d {
      assert DeclineOrigin(s, f, at, (set x | x in texts), u, d[u]);
      var l :| l in texts && DeclineSource(s, f, at, l, u, d[u]);
      assert Keeps(s, f, at, l, u);
    }
  }

  /** The tables take up the padded record, and `u` is declined at most for a while. */
  ghost predicate RoomyLoad(s: Site, f: FileFormat, at: int, t: Tables, k: string, u: U32, until: int)
    requires Live(s, f, at, k)
  {
    && Loaded(s, f, at, t) && TakenUp(s, f, at, k, t)
    && (u in t.declined ==> t.declined[u].expiresAt < until || at + s.leaseTime < until)
  }

  /** A load under which another MAC, if any, holds address `u`. */
  lemma RoomLoad(s: Site, f: FileFormat, at: int, k: string, u: U32, until: int) returns (t: Tables, l: Option<string>)
    requires Live(s, f, at, k) && u != AddressOf(s, f, k) && Freeable(s, f, at, k, u) && Undeclinable(s, f, at, u, until)
    ensures RoomyLoad(s, f, at, t, k, u, until)
    ensures match l
            case None => u !in t.byIP
            case Some(x) => Names(s, f, at, x, u) && Canon(x) != Canon(k) && TakenUp(s, f, at, x, t)
  {
    var texts := DeclineOrder(s, f, at, u, until);
    if x :| Names(s, f, at, x, u) && Canon(x) != Canon(k) {
      var order := PairOrder(s, f, at, k, x);
      t, l := LoadLeases(s, f, at, order).(declined := LoadDeclines(s, f, at, texts)), Some(x);
    } else {
      var order := OwnOrder(s, f, at, k);
      t, l := LoadLeases(s, f, at, order).(declined := LoadDeclines(s, f, at, texts)), None;
      UnnamedIsFree(s, f, at, t, u);
    }
  }

  /** A run up to tables in which `n` has a live lease and nothing but a decline that is over stands before `u`. */
  ghost predicate Ready(s: Site, a: World, pre: seq<Event>, f: FileFormat, c: int, t: Tables, n: string, u: U32)
    requires s.Ok()
  {
    Leads(s, a, pre, Up(f, c, t)) && AllProper(pre) && Clear(s, t, c, n, u)
  }

  ghost predicate Clear(s: Site, t: Tables, c: int, n: string, u: U32) {
    Sound(s, t) && LiveIn(t, c, n) && u !in t.byIP && (u in t.declined ==> t.declined[u].expiresAt <= c)
  }

  /** The lease of another MAC for `u`, if there is one, is released. */
  lemma Vacated(s: Site, f: FileFormat, now: int, at: int, k: string, u: U32)
    returns (pre: seq<Event>, g: FileFormat, t: Tables)
    requires s.Ok() && s.leaseFile != "" && Live(s, f, now, k) && Room(s, f, now, k, at, u)
    ensures Leads(s, Down(f, now), pre, Up(g, at, t)) && AllProper(pre) && Vacant(s, t, u, Canon(k), f.leases[k].expires)
    ensures u in t.declined ==> t.declined[u].expiresAt < f.leases[k].expires || at + s.leaseTime < f.leases[k].expires
  {
    var until := f.leases[k].expires;
    var r, l := RoomLoad(s, f, at, k, u, until);
    LoadedSound(s, f, at, r);
    StartsAndReads(s, f, now, at, r);
    if l.Some? {
      pre, g, t := VacatedBy(s, f, now, at, k, u, r, l.value);
    } else {
      pre, g, t := [Wait(at), Start(true)], f, r;
    }
  }

  ghost predicate Vacant(s: Site, t: Tables, u: U32, n: string, until: int) {
    Sound(s, t) && u !in t.byIP && HasUntil(t, n, until)
  }

  /** The MAC has a lease that runs until then. */
  ghost predicate HasUntil(t: Tables, n: string, until: int) {
    n in t.dynamic && t.dynamic[n].expires == until
  }

  lemma StartsAndReads(s: Site, f: FileFormat, now: int, at: int, t: Tables)
    requires s.Ok() && s.leaseFile != "" && Loaded(s, f, at, t) && now <= at
    ensures Leads(s, Down(f, now), [Wait(at), Start(true)], Up(f, at, t))
  {
    Waited(s, Down(f, now), at);
    StartLoads(s, f, at, t);
    Compose(s, Down(f, now), [Wait(at)], Down(f, at), [Start(true)], Up(f, at, t));
    assert [Wait(at)] + [Start(true)] == [Wait(at), Start(true)];
  }

  lemma VacatedBy(s: Site, f: FileFormat, now: int, at: int, k: string, u: U32, r: Tables, x: string)
    returns (pre: seq<Event>, g: FileFormat, t: Tables)
    requires s.Ok() && s.leaseFile != "" && Sound(s, r)
    requires Leads(s, Down(f, now), [Wait(at), Start(true)], Up(f, at, r))
    requires Live(s, f, at, k) && TakenUp(s, f, at, k, r)
    requires Names(s, f, at, x, u) && TakenUp(s, f, at, x, r) && Canon(x) != Canon(k)
    ensures Leads(s, Down(f, now), pre, Up(g, at, t)) && AllProper(pre)
    ensures Vacant(s, t, u, Canon(k), f.leases[k].expires) && t.declined == r.declined
  {
    t := Release(r, Canon(x), None);
    g := Save(t);
    pre := [Wait(at), Start(true)] + [ReleaseBy(x, None, true)];
    Released(s, f, at, r, x);
    Compose(s, Down(f, now), [Wait(at), Start(true)], Up(f, at, r), [ReleaseBy(x, None, true)], Up(g, at, t));
    OneMore([Wait(at), Start(true)], ReleaseBy(x, None, true));
    ReleasedHolder(s, r, Canon(x), Canon(k), u, f.leases[k].expires);
  }

  lemma ReleasedHolder(s: Site, r: Tables, p: string, n: string, u: U32, until: int)
    requires Sound(s, r) && p in r.dynamic && r.dynamic[p].ip == u && HasUntil(r, n, until) && n != p
    ensures Vacant(s, Release(r, p, None), u, n, until)
  {
    ReleaseKeeps(s, r, p, None);
  }

  /** The decline of `u`, if there is one, ends while the lease runs: by itself, or after a new decline. */
  lemma Readied(s: Site, a: World, pre: seq<Event>, g: FileFormat, at: int, t: Tables, n: string, u: U32, until: int)
    returns (all: seq<Event>, f: FileFormat, c: int, r: Tables)
    requires s.Ok() && s.leaseFile != "" && s.InPool(u) && u !in s.StaticIPs() && at < until
    requires Leads(s, a, pre, Up(g, at, t)) && AllProper(pre) && Vacant(s, t, u, n, until)
    requires u in t.declined ==> t.declined[u].expiresAt < until || at + s.leaseTime < until
    ensures Ready(s, a, all, f, c, r, n, u)
  {
    if u !in t.declined {
      all, f, c, r := pre, g, at, t;
    } else if t.declined[u].expiresAt < until {
      c := if at <= t.declined[u].expiresAt then t.declined[u].expiresAt else at;
      all, f, r := pre + [Wait(c)], g, t;
      WaitedOn(s, a, pre, g, at, t, c);
    } else {
      r := Decline(s, t, at, Canon(""), u);
      f, c := Save(r), at + s.leaseTime;
      all := ReadiedByDecline(s, a, pre, g, at, t, n, u, until, r);
    }
  }

  lemma ReadiedByDecline(s: Site, a: World, pre: seq<Event>, g: FileFormat, at: int, t: Tables, n: string, u: U32, until: int,
                         r: Tables)
    returns (all: seq<Event>)
    requires s.Ok() && s.leaseFile != "" && s.InPool(u) && u !in s.StaticIPs() && at + s.leaseTime < until
    requires Leads(s, a, pre, Up(g, at, t)) && AllProper(pre) && Vacant(s, t, u, n, until)
    requires r == Decline(s, t, at, Canon(""), u)
    ensures Ready(s, a, all, Save(r), at + s.leaseTime, r, n, u)
  {
    all := pre + [DeclineBy("", Some(u), true)] + [Wait(at + s.leaseTime)];
    DeclinedForAWhile(s, a, pre, g, at, t, u, r);
    DeclinedStill(s, t, at, u, n, until, r);
  }

  lemma OneMore(pre: seq<Event>, e: Event)
    requires AllProper(pre) && Proper(e)
    ensures AllProper(pre + [e])
  {
  }

  lemma WaitedOn(s: Site, a: World, pre: seq<Event>, g: FileFormat, at: int, t: Tables, c: int)
    requires s.Ok() && Leads(s, a, pre, Up(g, at, t)) && at <= c
    ensures Leads(s, a, pre + [Wait(c)], Up(g, c, t))
  {
    Waited(s, Up(g, at, t), c);
    Compose(s, a, pre, Up(g, at, t), [Wait(c)], Up(g, c, t));
  }

  lemma DeclinedStill(s: Site, t: Tables, at: int, u: U32, n: string, until: int, r: Tables)
    requires Vacant(s, t, u, n, until) && s.InPool(u) && u !in s.StaticIPs()
    requires r == Decline(s, t, at, Canon(""), u) && at + s.leaseTime < until
    ensures Clear(s, r, at + s.leaseTime, n, u)
  {
    DeclineKeeps(s, t, at, Canon(""), u);
  }

  lemma DeclinedForAWhile(s: Site, a: World, pre: seq<Event>, g: FileFormat, at: int, t: Tables, u: U32, r: Tables)
    requires s.Ok() && s.leaseFile != "" && Leads(s, a, pre, Up(g, at, t)) && r == Decline(s, t, at, Canon(""), u)
    ensures Leads(s, a, pre + [DeclineBy("", Some(u), true)] + [Wait(at + s.leaseTime)], Up(Save(r), at + s.leaseTime, r))
    ensures AllProper(pre) ==> AllProper(pre + [DeclineBy("", Some(u), true)] + [Wait(at + s.leaseTime)])
  {
    var decline := DeclineBy("", Some(u), true);
    DeclineServed(s, g, at, t, u, r);
    Compose(s, a, pre, Up(g, at, t), [decline], Up(Save(r), at, r));
    WaitedOn(s, a, pre + [decline], Save(r), at, r, at + s.leaseTime);
  }

  lemma ReadyIsOpen(s: Site, a: World, pre: seq<Event>, f: FileFormat, c: int, t: Tables, n: string, u: U32)
    requires s.Ok() && s.InPool(u) && u !in s.StaticIPs() && Ready(s, a, pre, f, c, t, n, u)
    ensures Open(s, Reap(t, c), u) && LiveIn(Reap(t, c), c, n) && Sound(s, Reap(t, c))
  {
    ReapKeeps(s, t, c);
  }

  /** A request under the second form of `n` then leaves two live leases with one second form. */
  lemma ServedBeside(s: Site, f: FileFormat, c: int, t: Tables, r: Tables, n: string, m: string, u: U32) returns (b: Tables)
    requires s.Ok() && s.leaseFile != "" && r == Reap(t, c) && Sound(s, r) && Open(s, r, u) && LiveIn(r, c, n)
    requires n != m && m != "" && Canon(m) == m && m !in s.statics
    ensures Leads(s, Up(f, c, t), [AllocateFor(m, true)], Up(Save(b), c, b))
    ensures Sound(s, b) && LiveIn(b, c, n) && LiveIn(b, c, m)
  {
    if m in r.dynamic {
      b := ServedAgain(s, f, c, t, r, m);
      RenewedBeside(s, r, c, n, m);
    } else {
      var y;
      y, b := ServedAnew(s, f, c, t, m, r, u);
      BoundBeside(s, r, c, n, m, y);
    }
  }

  lemma RenewedBeside(s: Site, r: Tables, c: int, n: string, m: string)
    requires s.Ok() && Sound(s, r) && LiveIn(r, c, n) && m in r.dynamic
    ensures var b := Renewed(r, m, c + s.leaseTime); Sound(s, b) && LiveIn(b, c, n) && LiveIn(b, c, m)
  {
    RenewKeeps(s, r, m, c + s.leaseTime);
  }

  lemma BoundBeside(s: Site, r: Tables, c: int, n: string, m: string, y: U32)
    requires s.Ok() && Sound(s, r) && LiveIn(r, c, n) && Open(s, r, y) && m !in r.dynamic && m != "" && m !in s.statics
    ensures var b := Bind(s, r, m, y, c + s.leaseTime); Sound(s, b) && LiveIn(b, c, n) && LiveIn(b, c, m)
  {
    BindKeeps(s, r, m, y, c + s.leaseTime);
  }

  lemma ServedAgain(s: Site, f: FileFormat, c: int, t: Tables, r: Tables, m: string) returns (b: Tables)
    requires s.Ok() && s.leaseFile != "" && r == Reap(t, c) && m in r.dynamic && m != "" && Canon(m) == m && m !in s.statics
    ensures Leads(s, Up(f, c, t), [AllocateFor(m, true)], Up(Save(b), c, b)) && b == Renewed(r, m, c + s.leaseTime)
  {
    b := Renewed(r, m, c + s.leaseTime);
    var l := r.dynamic[m].(expires := c + s.leaseTime);
    ReapIsReaped(t, c);
    RenewalAllocation(s, r, c, m, b, l);
    AllocateReaps(s, t, c, m);
    AllocationLeads(s, f, c, t, m, b, l);
  }

  /** A padded record with room: its second form is served another address beside it, and both are saved. */
  lemma RoomShares(s: Site, f: FileFormat, now: int, k: string, at: int, u: U32)
    requires s.Ok() && s.leaseFile != "" && PaddedRecord(s, f, now, k) && Room(s, f, now, k, at, u)
    ensures Sharing(s, Down(f, now))
  {
    var n, m, a := Canon(k), Canon(Canon(k)), Down(f, now);
    PaddedForms(k);
    var first, g, t := Vacated(s, f, now, at, k, u);
    var pre, h, c, r := Readied(s, a, first, g, at, t, n, u, f.leases[k].expires);
    ReadyIsOpen(s, a, pre, h, c, r, n, u);
    var b := ServedBeside(s, h, c, r, Reap(r, c), n, m, u);
    BesideShares(s, a, pre, h, c, r, n, m, b);
  }

  lemma BesideShares(s: Site, a: World, pre: seq<Event>, f: FileFormat, c: int, t: Tables, n: string, m: string, b: Tables)
    requires s.Ok() && s.leaseFile != "" && Leads(s, a, pre, Up(f, c, t)) && AllProper(pre)
    requires Leads(s, Up(f, c, t), [AllocateFor(m, true)], Up(Save(b), c, b)) && !PaddedForeignSpelling(m)
    requires Sound(s, b) && LiveIn(b, c, n) && LiveIn(b, c, m) && n != m
    requires Canon(n) == m == Canon(m) && m != "" && m !in s.statics
    ensures Sharing(s, a)
  {
    Compose(s, a, pre, Up(f, c, t), [AllocateFor(m, true)], Up(Save(b), c, b));
    SavedClashShares(s, a, pre + [AllocateFor(m, true)], b, c, n, m);
  }

  // ---------- exactly which files ----------

  /** From a file that is not safe some run acknowledges one address to two MACs at once. */
  lemma UnsafeShares(s: Site, f: FileFormat, now: int)
    requires s.Ok() && s.leaseFile != "" && !FileSafe(s, f, now)
    ensures Sharing(s, Down(f, now))
  {
    if Clashing(s, f, now) {
      var k, l, m, v, w :| Clash(s, f, now, k, l, m, v, w);
      ClashShares(s, f, now, k, l, m, v, w);
    } else {
      var k :| Doubled(s, f, now, k);
      if l, at :| Twinned(s, f, now, k, l, at) {
        TwinsShare(s, f, now, k, l, at);
      } else {
        var at, u :| Room(s, f, now, k, at, u);
        RoomShares(s, f, now, k, at, u);
      }
    }
  }

  /** From a safe file no run does. */
  lemma SafeNeverShares(s: Site, f: FileFormat, now: int)
    requires s.Ok() && s.leaseFile != "" && FileSafe(s, f, now)
    ensures !Sharing(s, Down(f, now))
  {
    if Sharing(s, Down(f, now)) {
      var ws, es, i, j, g, h :| ws != [] && ws[0] == Down(f, now) && Shared(s, ws, es, i, j, g, h);
      Exclusivity(s, ws, es, i, j, g, h);
    }
  }

  /**
   A server started from a lease file comes to acknowledge one address to two MACs at once
   if and only if the file is not safe.
   */
  lemma FileSharesIff(s: Site, f: FileFormat, now: int)
    requires s.Ok() && s.leaseFile != ""
    ensures Sharing(s, Down(f, now)) <==> !FileSafe(s, f, now)
  {
    if FileSafe(s, f, now) { SafeNeverShares(s, f, now); } else { UnsafeShares(s, f, now); }
  }
}
