/** The full structural invariant on every run from no file or from a file the server wrote. */
module LeaseStructure {
  import opened MacText
  import opened LeaseModel
  import opened LeaseInvariants
  import opened LeaseSafety
  import opened LeaseRuns

  ghost predicate SelfWritten(s: Site, f: FileFormat) {
    exists t :: Consistent(s, t) && KeysSettled(t) && f == Save(t)
  }

  /** Memory is consistent; the file is absent or was written by a consistent server. */
  ghost predicate Structured(s: Site, w: World) {
    && (w.mem.Some? ==> Consistent(s, w.mem.value) && KeysSettled(w.mem.value))
    && (w.file.Absent? || (w.file.Holds? && SelfWritten(s, w.file.f)))
  }

  /** A load of a self-written file: leased and declined addresses stay apart. */
  lemma LoadedConsistent(s: Site, t: Tables, now: int, u: Tables)
    requires Consistent(s, t) && KeysSettled(t) && Loaded(s, Save(t), now, u)
    ensures Consistent(s, u) && KeysSettled(u)
  {
    LoadedIsReread(s, t, now, u);
    ReapKeeps(s, t, now);
  }

  lemma StepKeepsStructured(s: Site, w: World, e: Event, w': World)
    requires s.Ok() && Step(s, w, e, w') && Structured(s, w) && Proper(e)
    ensures Structured(s, w')
  {
    if w'.mem.Some? { StepKeepsConsistent(s, w, e, w'); }
    FileSteps(s, w, e, w');
    assert Consistent(s, NO_LEASES) && KeysSettled(NO_LEASES);
  }

  lemma StepKeepsConsistent(s: Site, w: World, e: Event, w': World)
    requires s.Ok() && Step(s, w, e, w') && Structured(s, w) && Proper(e) && w'.mem.Some?
    ensures Consistent(s, w'.mem.value) && KeysSettled(w'.mem.value)
  {
    match e
    case AllocateFor(mac, _) =>
      CanonIdempotentIff(mac);
      AllocateKeeps(s, w.mem.value, w.clock, Canon(mac));
      AllocateSettled(s, w.mem.value, w.clock, Canon(mac));
    case ReleaseBy(mac, ip, _) => ReleaseKeeps(s, w.mem.value, Canon(mac), ip);
    case DeclineBy(mac, ip, _) =>
      if ip.Some? { DeclineKeeps(s, w.mem.value, w.clock, Canon(mac), ip.value); }
    case Start(_) =>
      if s.leaseFile != "" && w.file.Holds? {
        var t :| Consistent(s, t) && KeysSettled(t) && w.file.f == Save(t);
        LoadedConsistent(s, t, w.clock, w'.mem.value);
      }
    case _ =>
  }

  /**
   Full structural invariant: on every run from no file or a self-written one, `dynamic` and
   `byIP` are mutual inverses, leased and declined addresses lie in the pool, are not static
   and never coincide, and no static MAC has a dynamic lease.
   */
  lemma {:induction false} StructuralInvariant(s: Site, ws: seq<World>, es: seq<Event>, i: nat)
    requires s.Ok() && Run(s, ws, es) && i < |ws|
    requires Structured(s, ws[0]) && forall e | e in es :: Proper(e)
    ensures ws[i].mem.Some? ==> Consistent(s, ws[i].mem.value)
    ensures Structured(s, ws[i])
    decreases i
  {
    if i > 0 {
      StructuralInvariant(s, ws, es, i - 1);
      StepKeepsStructured(s, ws[i - 1], es[i - 1], ws[i]);
    }
  }

  /** A structured world is safe, so the exclusivity theorems apply from it. */
  lemma StructuredIsSafe(s: Site, w: World)
    requires Structured(s, w)
    ensures Safe(s, w)
  {
    if w.file.Holds? {
      var t :| Consistent(s, t) && KeysSettled(t) && w.file.f == Save(t);
      SettledIsSafe(s, t, w.clock);
      SettledUnlocked(t);
      SavedIsSafe(s, t, w.clock);
    }
  }
}
