/** Declined addresses stay out of the pool for one lease time, on every run from any lease file. */
module LeaseQuarantine {
  import opened Wrappers
  import opened MacText
  import opened IpText
  import opened Ip6Text
  import opened LeaseModel
  import opened LeaseInvariants
  import opened LeaseRuns

  ghost predicate OutOfMemory(t: Tables, v: U32, until: int) {
    v in t.declined && t.declined[v].expiresAt >= until && forall m | m in t.dynamic :: t.dynamic[m].ip != v
  }

  ghost predicate OutOfFile(f: FileFormat, v: U32, until: int) {
    && IpString(v) in f.declined && f.declined[IpString(v)].expiresAt >= until
    && (forall k | k in f.declined && ParseIp4(k) == Some(v) :: f.declined[k].expiresAt >= until)
    && (forall k | k in f.leases :: ParseIp4(f.leases[k].ip) != Some(v))
  }

  /** Address `v` is out of the pool until `until`, in memory and in the file. */
  ghost predicate Out(s: Site, w: World, v: U32, until: int) {
    && s.InPool(v) && v !in s.StaticIPs() && until <= w.clock + s.leaseTime
    && (w.mem.Some? ==> OutOfMemory(w.mem.value, v, until))
    && (s.leaseFile != "" ==> w.file.Holds? && OutOfFile(w.file.f, v, until))
  }

  predicate Clears(e: Event) {
    e.ClearAll? || (e.ClearFile? && e.diskOk)
  }

  lemma SavedOut(t: Tables, v: U32, until: int)
    requires OutOfMemory(t, v, until)
    ensures OutOfFile(Save(t), v, until)
  {
    SaveFacts(t);
    IpTexts();
    forall k | k in Save(t).declined && ParseIp4(k) == Some(v) ensures Save(t).declined[k].expiresAt >= until {
      var w := SavedUnder(t, k);
    }
  }

  lemma LoadedOut(s: Site, f: FileFormat, now: int, t: Tables, v: U32, until: int)
    requires Loaded(s, f, now, t) && OutOfFile(f, v, until) && now < until && s.InPool(v) && v !in s.StaticIPs()
    ensures OutOfMemory(t, v, until)
  {
    LoadedFacts(s, f, now, t);
    PrintedParses(v);
    assert Kept(s, f, now, IpString(v));
    assert DeclineOrigin(s, f, now, f.declined.Keys, v, t.declined[v]);
    forall m | m in t.dynamic ensures t.dynamic[m].ip != v {
      var k := LoadedUnder(s, f, now, t, m);
    }
  }

  lemma AllocateKeepsOut(s: Site, t: Tables, now: int, m: string, v: U32, until: int)
    requires s.Ok() && OutOfMemory(t, v, until) && now < until
    ensures OutOfMemory(Allocate(s, t, now, m).tables, v, until)
  {
    if m != "" && m !in s.statics {
      AllocateShape(s, t, now, m);
      var r, u := Reap(t, now), Allocate(s, t, now, m).tables;
      assert OutOfMemory(r, v, until);
    }
  }

  lemma StepKeepsOut(s: Site, w: World, e: Event, w': World, v: U32, until: int)
    requires s.Ok() && Step(s, w, e, w') && Out(s, w, v, until)
    requires w.clock < until && !Clears(e) && !Forgets(s, e)
    ensures Out(s, w', v, until)
  {
    match e {
      case AllocateFor(mac, _) => AllocateKeepsOut(s, w.mem.value, w.clock, Canon(mac), v, until);
      case Start(_) =>
        if w'.mem.Some? { LoadedOut(s, w.file.f, w.clock, w'.mem.value, v, until); }
      case _ =>
    }
    FileSteps(s, w, e, w');
    if w'.file != w.file {
      SavedOut(w'.mem.value, v, until);
    }
  }

  lemma {:induction false} OutThrough(s: Site, ws: seq<World>, es: seq<Event>, i: nat, j: nat, v: U32, until: int)
    requires s.Ok() && Run(s, ws, es) && i <= j < |ws|
    requires Out(s, ws[i], v, until) && ws[j].clock < until
    requires forall k | i <= k < j :: !Clears(es[k]) && !Forgets(s, es[k])
    ensures Out(s, ws[j], v, until)
    decreases j
  {
    if i < j {
      assert Step(s, ws[j - 1], es[j - 1], ws[j]) && ws[j - 1].clock <= ws[j].clock;
      OutThrough(s, ws, es, i, j - 1, v, until);
      StepKeepsOut(s, ws[j - 1], es[j - 1], ws[j], v, until);
    }
  }

  /** A decline whose save succeeded takes the address out, whoever held it before. */
  lemma DeclinedIsOut(s: Site, w: World, e: Event, w': World)
    requires s.Ok() && AlwaysSound(s, w) && Step(s, w, e, w')
    requires e.DeclineBy? && e.ip.Some? && SaveError(s, e.diskOk).None?
    requires s.InPool(e.ip.value) && e.ip.value !in s.StaticIPs()
    ensures Out(s, w', e.ip.value, w.clock + s.leaseTime)
  {
    SavedOut(w'.mem.value, e.ip.value, w.clock + s.leaseTime);
  }

  lemma OutIsNotOffered(s: Site, w: World, e: Event, v: U32, until: int)
    requires s.Ok() && AlwaysSound(s, w) && Out(s, w, v, until) && w.clock < until && Offered(s, w, e).Some?
    ensures Offered(s, w, e).value.ip != v
  {
    var m := Canon(e.mac);
    if m in s.statics {
      assert s.statics[m].ip in s.StaticIPs();
    } else {
      AllocateKeepsOut(s, w.mem.value, w.clock, m, v, until);
      OfferedIsHeld(s, w, e);
    }
  }

  lemma {:induction false} RunKeepsSound(s: Site, ws: seq<World>, es: seq<Event>, i: nat)
    requires s.Ok() && Run(s, ws, es) && AlwaysSound(s, ws[0]) && i < |ws|
    ensures AlwaysSound(s, ws[i])
  {
    if i > 0 {
      RunKeepsSound(s, ws, es, i - 1);
      StepKeepsSound(s, ws[i - 1], es[i - 1], ws[i]);
    }
  }

  /**
   Decline quarantine (section 4.3.3 of RFC 2131): once the decline of a pool address is
   saved, the address is offered to nobody for one lease time, through failed saves,
   crashes and restarts, unless leases are cleared; whatever file the run began with.
   */
  lemma DeclineQuarantine(s: Site, ws: seq<World>, es: seq<Event>, i: nat, j: nat)
    requires s.Ok() && Run(s, ws, es) && AlwaysSound(s, ws[0]) && i < j < |es|
    requires es[i].DeclineBy? && es[i].ip.Some? && SaveError(s, es[i].diskOk).None?
    requires s.InPool(es[i].ip.value) && es[i].ip.value !in s.StaticIPs()
    requires ws[j].clock < ws[i].clock + s.leaseTime
    requires forall k | i < k < j :: !Clears(es[k]) && !Forgets(s, es[k])
    ensures Offered(s, ws[j], es[j]).Some? ==> Offered(s, ws[j], es[j]).value.ip != es[i].ip.value
  {
    var v, until := es[i].ip.value, ws[i].clock + s.leaseTime;
    RunKeepsSound(s, ws, es, i);
    RunKeepsSound(s, ws, es, j);
    DeclinedIsOut(s, ws[i], es[i], ws[i + 1]);
    OutThrough(s, ws, es, i + 1, j, v, until);
    if Offered(s, ws[j], es[j]).Some? {
      OutIsNotOffered(s, ws[j], es[j], v, until);
    }
  }
}
