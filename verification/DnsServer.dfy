/** The DNS server: its tables, local answers and reverse answers, and the choice of a forwarder. */
module DnsServer {
  import opened Wrappers
  import opened MacText
  import opened IpText
  import opened DnsNames
  import LeaseModel
  import opened LeaseAllocator
  import Tracker

  datatype StaticRecord = StaticRecord(name: string, ip: U32)

  /** A static DHCP binding as the DNS server sees it. */
  datatype Host = Host(mac: string, hostname: string)

  datatype Wildcard = Wildcard(suffix: string, upstream: seq<string>)

  datatype Settings = Settings(domain: string, statics: seq<StaticRecord>, hosts: seq<Host>, wildcards: seq<Wildcard>,
                               upstreams: seq<string>, registerDeployed: bool)

  // ---------- tables ----------

  function StaticA(c: Settings, n: nat): map<string, U32>
    requires n <= |c.statics|
  {
    if n == 0 then map[] else StaticA(c, n - 1)[NameOf(c, n - 1) := c.statics[n - 1].ip]
  }

  function StaticPTR(c: Settings, n: nat): map<string, string>
    requires n <= |c.statics|
  {
    if n == 0 then map[]
    else StaticPTR(c, n - 1)[ReverseOf(c, n - 1) := NameOf(c, n - 1)]
  }

  lemma {:induction false} DottedIsLower(ip: seq<byte>, k: nat)
    requires k < |ip|
    ensures forall c | c in DottedFrom(ip, k) :: LowerChar(c) == c
    decreases |ip| - k
  {
    if k < |ip| - 1 { DottedIsLower(ip, k + 1); }
  }

  /** The reverse name under which an address is asked for. */
  function ReverseName(v: U32): string {
    Lower(ReverseAddr(v))
  }

  lemma ReverseNameInjective(v: U32, w: U32)
    ensures ReverseName(v) == ReverseName(w) ==> v == w
  {
    forall u: U32 ensures ReverseName(u) == ReverseAddr(u) {
      var ip := U32ToIp(u);
      DottedIsLower([ip[3], ip[2], ip[1], ip[0]], 0);
    }
    ReverseAddrInjective(v, w);
  }

  function NameOf(c: Settings, i: nat): string
    requires i < |c.statics|
  {
    Fqdn(c.domain, c.statics[i].name)
  }

  function ReverseOf(c: Settings, i: nat): string
    requires i < |c.statics|
  {
    ReverseName(c.statics[i].ip)
  }

  /** The last static record with its address: its name is the reverse answer. */
  predicate LastWithAddress(c: Settings, i: nat) {
    i < |c.statics| && forall k | i < k < |c.statics| :: c.statics[k].ip != c.statics[i].ip
  }

  /** The last static record with its name: its address is the forward answer. */
  predicate LastWithName(c: Settings, i: nat) {
    i < |c.statics| && forall k | i < k < |c.statics| :: NameOf(c, k) != NameOf(c, i)
  }

  /** The table that results when entries are made one after the other. */
  function TableOf(keys: seq<string>, names: seq<string>): map<string, string>
    requires |keys| == |names|
  {
    if keys == [] then map[] else TableOf(keys[..|keys| - 1], names[..|keys| - 1])[keys[|keys| - 1] := names[|keys| - 1]]
  }

  lemma {:induction false} LastEntry(keys: seq<string>, names: seq<string>, q: string) returns (i: nat)
    requires |keys| == |names| && q in TableOf(keys, names)
    ensures i < |keys| && keys[i] == q && TableOf(keys, names)[q] == names[i]
    ensures forall k | i < k < |keys| :: keys[k] != q
  {
    var n := |keys| - 1;
    if keys[n] == q {
      i := n;
    } else {
      i := LastEntry(keys[..n], names[..n], q);
    }
  }

  lemma {:induction false} ReverseTable(c: Settings, keys: seq<string>, names: seq<string>)
    requires |keys| == |names| <= |c.statics|
    requires forall k | 0 <= k < |keys| :: keys[k] == ReverseOf(c, k)
    requires forall k | 0 <= k < |keys| :: names[k] == NameOf(c, k)
    ensures StaticPTR(c, |keys|) == TableOf(keys, names)
  {
    if keys != [] {
      ReverseTable(c, keys[..|keys| - 1], names[..|keys| - 1]);
    }
  }

  lemma ReverseOwner(c: Settings, n: nat, q: string) returns (i: nat)
    requires n <= |c.statics| && q in StaticPTR(c, n)
    ensures i < n && ReverseOf(c, i) == q && StaticPTR(c, n)[q] == NameOf(c, i)
    ensures forall k | i < k < n :: ReverseOf(c, k) != q
  {
    var keys := seq(n, k requires 0 <= k < n => ReverseOf(c, k));
    var names := seq(n, k requires 0 <= k < n => NameOf(c, k));
    ReverseTable(c, keys, names);
    i := LastEntry(keys, names, q);
    assert forall k | 0 <= k < n :: keys[k] == ReverseOf(c, k);
  }

  lemma {:induction false} ForwardEntry(c: Settings, n: nat, i: nat)
    requires i < n <= |c.statics|
    ensures NameOf(c, i) in StaticA(c, n)
  {
    if i < n - 1 { ForwardEntry(c, n - 1, i); }
  }

  lemma {:induction false} ForwardOwner(c: Settings, n: nat, name: string) returns (j: nat)
    requires n <= |c.statics| && name in StaticA(c, n)
    ensures j < n && NameOf(c, j) == name && StaticA(c, n)[name] == c.statics[j].ip
    ensures forall k | j < k < n :: NameOf(c, k) != name
  {
    if NameOf(c, n - 1) == name {
      j := n - 1;
    } else {
      j := ForwardOwner(c, n - 1, name);
    }
  }

  /** The entries before sorting: trimmed, lower case, dots at both ends; empty suffixes are skipped. */
  function Entries(ws: seq<Wildcard>): seq<Wildcard> {
    if ws == [] then []
    else
      var before, suf := Entries(ws[..|ws| - 1]), Lower(TrimDots(ws[|ws| - 1].suffix));
      if suf == "" then before else before + [Wildcard("." + suf + ".", ws[|ws| - 1].upstream)]
  }

  predicate OnlyDots(s: string) {
    forall k | 0 <= k < |s| :: s[k] == '.'
  }

  /** The configured wildcard is not empty, and this is its entry: lower case, a dot at both ends, its own upstreams. */
  predicate EntryOf(w: Wildcard, e: Wildcard) {
    !OnlyDots(w.suffix) && e.upstream == w.upstream && e.suffix == "." + Lower(TrimDots(w.suffix)) + "."
  }

  ghost predicate SomeEntryOf(ws: seq<Wildcard>, e: Wildcard) {
    exists w :: w in ws && EntryOf(w, e)
  }

  lemma EntriesOne(w: Wildcard)
    ensures Entries([w]) == if OnlyDots(w.suffix) then [] else [Wildcard("." + Lower(TrimDots(w.suffix)) + ".", w.upstream)]
  {
    assert [w][..0] == [] && Entries([w][..0]) == [];
    TrimDotsEmpty(w.suffix);
    LowerKeepsDots(TrimDots(w.suffix));
  }

  /** One entry for each wildcard that is not only dots, in their order. */
  lemma {:induction false} EntriesJoin(a: seq<Wildcard>, b: seq<Wildcard>)
    ensures Entries(a + b) == Entries(a) + Entries(b)
  {
    if b == [] {
      assert a + b == a;
    } else {
      var n := |b| - 1;
      EntriesJoin(a, b[..n]);
      assert (a + b)[..|a + b| - 1] == a + b[..n] && (a + b)[|a + b| - 1] == b[n];
    }
  }

  lemma {:induction false} EntriesExact(ws: seq<Wildcard>)
    ensures forall e :: e in Entries(ws) <==> SomeEntryOf(ws, e)
  {
    if ws != [] {
      var n := |ws| - 1;
      EntriesExact(ws[..n]);
      EntriesJoin(ws[..n], [ws[n]]);
      EntriesOne(ws[n]);
      assert ws == ws[..n] + [ws[n]];
      forall e ensures SomeEntryOf(ws, e) <==> SomeEntryOf(ws[..n], e) || EntryOf(ws[n], e) {
        if EntryOf(ws[n], e) { assert ws[n] in ws; }
        if w :| w in ws[..n] && EntryOf(w, e) { assert w in ws; }
      }
    }
  }

  ghost predicate LongestFirst(ws: seq<Wildcard>) {
    forall i, j | 0 <= i < j < |ws| :: |ws[i].suffix| >= |ws[j].suffix|
  }

  /** A dotted suffix around a bare one. */
  ghost predicate DottedEntry(e: Wildcard) {
    |e.suffix| >= 3 && e.suffix == "." + e.suffix[1..|e.suffix| - 1] + "." && Bare(e.suffix[1..|e.suffix| - 1])
  }

  lemma {:induction false} EntriesDotted(ws: seq<Wildcard>)
    ensures forall e | e in Entries(ws) :: DottedEntry(e)
  {
    if ws != [] {
      var n := |ws| - 1;
      var suf := Lower(TrimDots(ws[n].suffix));
      EntriesDotted(ws[..n]);
      TrimDotsBare(ws[n].suffix);
      LowerKeepsDots(TrimDots(ws[n].suffix));
      if suf != "" {
        var e := Wildcard("." + suf + ".", ws[n].upstream);
        assert e.suffix[1..|e.suffix| - 1] == suf;
      }
    }
  }

  // ---------- forwarding ----------

  /** The test of `upstreamsFor` on one entry. */
  predicate Matches(e: Wildcard, qname: string) {
    HasSuffix(qname, e.suffix) || TrimFinalDot(qname) == TrimDots(e.suffix)
  }

  /**
   An entry matches a name that ends in a dot exactly when its dotted suffix ends the name
   with a dot put in front, so only at label boundaries; a name without the final dot is
   matched only by the entry that spells it.
   */
  lemma MatchesIff(e: Wildcard, qname: string)
    requires DottedEntry(e)
    ensures qname != "" && qname[|qname| - 1] == '.' ==> (Matches(e, qname) <==> HasSuffix("." + qname, e.suffix))
    ensures qname == "" || qname[|qname| - 1] != '.' ==> (Matches(e, qname) <==> "." + qname + "." == e.suffix)
  {
    TrimDotted(e.suffix[1..|e.suffix| - 1]);
    if qname != "" && qname[|qname| - 1] == '.' {
      assert qname == qname[..|qname| - 1] + ".";
      MatchesRooted(e.suffix[1..|e.suffix| - 1], qname[..|qname| - 1]);
    } else {
      MatchesUnrooted(e.suffix[1..|e.suffix| - 1], qname);
    }
  }

  lemma MatchesRooted(suf: string, t: string)
    ensures HasSuffix(t + ".", "." + suf + ".") || t == suf <==> HasSuffix("." + (t + "."), "." + suf + ".")
  {
    var dotted, wanted := "." + (t + "."), "." + suf + ".";
    if |wanted| <= |t + "."| {
      assert dotted[|dotted| - |wanted|..] == (t + ".")[|t + "."| - |wanted|..];
    } else if HasSuffix(dotted, wanted) {
      assert dotted == wanted && dotted[1..|dotted| - 1] == t && wanted[1..|wanted| - 1] == suf;
    }
    if t == suf { assert dotted == wanted; }
  }

  lemma SuffixEnds(s: string, suffix: string)
    requires suffix != ""
    ensures HasSuffix(s, suffix) ==> s != "" && s[|s| - 1] == suffix[|suffix| - 1]
  {
    if HasSuffix(s, suffix) {
      var tail := s[|s| - |suffix|..];
      assert tail[|tail| - 1] == s[|s| - 1];
    }
  }

  lemma MatchesUnrooted(suf: string, qname: string)
    requires qname == "" || qname[|qname| - 1] != '.'
    ensures !HasSuffix(qname, "." + suf + ".")
    ensures qname == suf <==> "." + qname + "." == "." + suf + "."
  {
    var wanted := "." + suf + ".";
    SuffixEnds(qname, wanted);
    assert ("." + qname + ".")[1..|qname| + 1] == qname && wanted[1..|suf| + 1] == suf;
  }

  lemma SameElements(a: seq<Wildcard>, b: seq<Wildcard>)
    requires multiset(a) == multiset(b)
    ensures forall e :: e in a <==> e in b
  {
    forall e ensures e in a <==> e in b {
      assert e in a <==> e in multiset(a);
      assert e in b <==> e in multiset(b);
    }
  }

  /** The name lies under the configured suffix: it is the suffix, or ends with it behind a dot. */
  predicate Under(w: Wildcard, qname: string) {
    && !OnlyDots(w.suffix)
    && var dotted := "." + Lower(TrimDots(w.suffix)) + ".";
       if qname != "" && qname[|qname| - 1] == '.' then HasSuffix("." + qname, dotted) else "." + qname + "." == dotted
  }

  lemma UnderIsMatch(w: Wildcard, e: Wildcard, qname: string)
    requires EntryOf(w, e)
    ensures Under(w, qname) <==> Matches(e, qname)
    ensures |e.suffix| == |TrimDots(w.suffix)| + 2
  {
    TrimDotsEmpty(w.suffix);
    TrimDotsBare(w.suffix);
    LowerKeepsDots(TrimDots(w.suffix));
    assert e.suffix[1..|e.suffix| - 1] == Lower(TrimDots(w.suffix));
    MatchesIff(e, qname);
  }

  /** The upstreams of a longest configured suffix that the name lies under. */
  ghost predicate LongestUnder(ws: seq<Wildcard>, qname: string, upstreams: seq<string>) {
    exists w :: w in ws && Under(w, qname) && upstreams == w.upstream
      && forall v | v in ws && Under(v, qname) :: |TrimDots(v.suffix)| <= |TrimDots(w.suffix)|
  }

  /** The default without such a suffix. */
  ghost predicate RightUpstreams(c: Settings, qname: string, upstreams: seq<string>) {
    if forall w | w in c.wildcards :: !Under(w, qname) then upstreams == c.upstreams
    else LongestUnder(c.wildcards, qname, upstreams)
  }

  /** A name under one configured suffix only goes to the upstreams of that one. */
  lemma OnlySuffix(c: Settings, qname: string, upstreams: seq<string>, w: Wildcard)
    requires RightUpstreams(c, qname, upstreams) && w in c.wildcards && Under(w, qname)
    requires forall v | v in c.wildcards && Under(v, qname) :: v.upstream == w.upstream
    ensures upstreams == w.upstream
  {
  }

  lemma EntryIsSorted(ws: seq<Wildcard>, sorted: seq<Wildcard>, w: Wildcard) returns (e: Wildcard)
    requires (forall f :: f in sorted <==> SomeEntryOf(ws, f)) && w in ws && !OnlyDots(w.suffix)
    ensures e in sorted && EntryOf(w, e)
  {
    e := Wildcard("." + Lower(TrimDots(w.suffix)) + ".", w.upstream);
    assert SomeEntryOf(ws, e);
  }

  lemma MatchIsUnder(ws: seq<Wildcard>, sorted: seq<Wildcard>, qname: string, e: Wildcard)
    requires (forall f :: f in sorted <==> SomeEntryOf(ws, f)) && LongestMatch(sorted, qname, e)
    ensures LongestUnder(ws, qname, e.upstream)
  {
    var w :| w in ws && EntryOf(w, e);
    UnderIsMatch(w, e, qname);
    forall v | v in ws && Under(v, qname) ensures |TrimDots(v.suffix)| <= |TrimDots(w.suffix)| {
      var f := EntryIsSorted(ws, sorted, v);
      UnderIsMatch(v, f, qname);
    }
  }

  lemma NoMatchIsUnder(ws: seq<Wildcard>, sorted: seq<Wildcard>, qname: string)
    requires (forall f :: f in sorted <==> SomeEntryOf(ws, f)) && forall f | f in sorted :: !Matches(f, qname)
    ensures forall w | w in ws :: !Under(w, qname)
  {
    forall w | w in ws ensures !Under(w, qname) {
      UnmatchedIsNotUnder(ws, sorted, qname, w);
    }
  }

  lemma UnmatchedIsNotUnder(ws: seq<Wildcard>, sorted: seq<Wildcard>, qname: string, w: Wildcard)
    requires (forall f :: f in sorted <==> SomeEntryOf(ws, f)) && w in ws
    ensures Under(w, qname) ==> exists f :: f in sorted && Matches(f, qname)
  {
    if Under(w, qname) {
      var f := EntryIsSorted(ws, sorted, w);
      UnderIsMatch(w, f, qname);
    }
  }

  /** Two matching entries of equal length have the same suffix: only duplicates can be ambiguous. */
  lemma EqualLengthsAgree(e: Wildcard, f: Wildcard, qname: string)
    requires DottedEntry(e) && DottedEntry(f) && Matches(e, qname) && Matches(f, qname) && |e.suffix| == |f.suffix|
    ensures e.suffix == f.suffix
  {
    MatchesIff(e, qname);
    MatchesIff(f, qname);
  }

  // ---------- local answers ----------

  /** The allocator and the tracker at one moment. */
  datatype Moment = Moment(site: LeaseModel.Site, tables: LeaseModel.Tables, deployed: Tracker.Deployed, now: int)

  /** The address a host name stands for: its MAC is deployed and holds a lease. */
  function HostAddress(m: Moment, h: Host): Option<U32> {
    if h.hostname == "" || Canon(h.mac) !in m.deployed then None
    else
      match LeaseModel.Lookup(m.site, m.tables, m.now, Canon(h.mac))
      case None => None
      case Some(l) => Some(l.ip)
  }

  function DeployedA(c: Settings, m: Moment, qname: string, hosts: seq<Host>): Option<U32> {
    if hosts == [] then None
    else if Fqdn(c.domain, hosts[0].hostname) == qname && HostAddress(m, hosts[0]).Some? then HostAddress(m, hosts[0])
    else DeployedA(c, m, qname, hosts[1..])
  }

  function LocalA(c: Settings, m: Moment, qname: string): Option<U32> {
    if qname in StaticA(c, |c.statics|) then Some(StaticA(c, |c.statics|)[qname])
    else if c.registerDeployed then DeployedA(c, m, qname, c.hosts)
    else None
  }

  function DeployedPTR(c: Settings, m: Moment, qname: string, hosts: seq<Host>): Option<string> {
    if hosts == [] then None
    else if HostAddress(m, hosts[0]).Some? && Lower(ReverseAddr(HostAddress(m, hosts[0]).value)) == qname
    then Some(Fqdn(c.domain, hosts[0].hostname))
    else DeployedPTR(c, m, qname, hosts[1..])
  }

  function LocalPTR(c: Settings, m: Moment, qname: string): Option<string> {
    if qname in StaticPTR(c, |c.statics|) then Some(StaticPTR(c, |c.statics|)[qname])
    else if c.registerDeployed then DeployedPTR(c, m, qname, c.hosts)
    else None
  }

  /** Some static record has this name and address. */
  ghost predicate NamedStatic(c: Settings, name: string, ip: U32) {
    exists i :: 0 <= i < |c.statics| && Fqdn(c.domain, c.statics[i].name) == name && c.statics[i].ip == ip
  }

  /** Some host of the list has this name and, at this moment, this address. */
  ghost predicate NamedHost(c: Settings, m: Moment, hosts: seq<Host>, name: string, ip: U32) {
    exists h :: h in hosts && NamesIt(c, m, h, name, ip)
  }

  ghost predicate NamesIt(c: Settings, m: Moment, h: Host, name: string, ip: U32) {
    Fqdn(c.domain, h.hostname) == name && HostAddress(m, h) == Some(ip)
  }

  lemma NamedHostSplit(c: Settings, m: Moment, hosts: seq<Host>, name: string, ip: U32)
    requires hosts != []
    ensures NamedHost(c, m, hosts, name, ip) <==> NamesIt(c, m, hosts[0], name, ip) || NamedHost(c, m, hosts[1..], name, ip)
  {
    assert hosts == [hosts[0]] + hosts[1..];
    if NamedHost(c, m, hosts, name, ip) {
      var h :| h in hosts && NamesIt(c, m, h, name, ip);
      assert h == hosts[0] || h in hosts[1..];
    }
  }

  ghost predicate Named(c: Settings, m: Moment, name: string, ip: U32) {
    NamedStatic(c, name, ip) || NamedHost(c, m, c.hosts, name, ip)
  }

  lemma {:induction false} StaticAFacts(c: Settings, n: nat, name: string)
    requires n <= |c.statics|
    ensures name in StaticA(c, n) ==> NamedStatic(c, name, StaticA(c, n)[name])
    ensures name in StaticA(c, n) <==> exists i :: 0 <= i < n && Fqdn(c.domain, c.statics[i].name) == name
  {
    if n > 0 {
      StaticAFacts(c, n - 1, name);
      if Fqdn(c.domain, c.statics[n - 1].name) == name {
        assert NamedStatic(c, name, c.statics[n - 1].ip);
      } else {
        assert name in StaticA(c, n) <==> name in StaticA(c, n - 1);
      }
    }
  }

  lemma {:induction false} StaticPTRFacts(c: Settings, n: nat, q: string)
    requires n <= |c.statics| && q in StaticPTR(c, n)
    ensures exists ip :: Lower(ReverseAddr(ip)) == q && NamedStatic(c, StaticPTR(c, n)[q], ip)
  {
    if Lower(ReverseAddr(c.statics[n - 1].ip)) == q {
      assert NamedStatic(c, StaticPTR(c, n)[q], c.statics[n - 1].ip);
    } else {
      StaticPTRFacts(c, n - 1, q);
    }
  }

  lemma {:induction false} DeployedAFacts(c: Settings, m: Moment, q: string, hosts: seq<Host>)
    ensures DeployedA(c, m, q, hosts).Some? ==> NamedHost(c, m, hosts, q, DeployedA(c, m, q, hosts).value)
    ensures DeployedA(c, m, q, hosts).None? ==> forall ip :: !NamedHost(c, m, hosts, q, ip)
  {
    if hosts != [] {
      assert hosts == [hosts[0]] + hosts[1..];
      DeployedAFacts(c, m, q, hosts[1..]);
      forall ip
        ensures NamedHost(c, m, hosts, q, ip) <==> NamesIt(c, m, hosts[0], q, ip) || NamedHost(c, m, hosts[1..], q, ip)
      {
        NamedHostSplit(c, m, hosts, q, ip);
      }
    }
  }

  lemma {:induction false} DeployedPTRFacts(c: Settings, m: Moment, q: string, hosts: seq<Host>)
    requires DeployedPTR(c, m, q, hosts).Some?
    ensures exists ip :: Lower(ReverseAddr(ip)) == q && NamedHost(c, m, hosts, DeployedPTR(c, m, q, hosts).value, ip)
  {
    assert hosts == [hosts[0]] + hosts[1..];
    if HostAddress(m, hosts[0]).Some? && Lower(ReverseAddr(HostAddress(m, hosts[0]).value)) == q {
      var ip, name := HostAddress(m, hosts[0]).value, DeployedPTR(c, m, q, hosts).value;
      assert NamesIt(c, m, hosts[0], name, ip);
      NamedHostSplit(c, m, hosts, name, ip);
    } else {
      DeployedPTRFacts(c, m, q, hosts[1..]);
      var ip :| Lower(ReverseAddr(ip)) == q && NamedHost(c, m, hosts[1..], DeployedPTR(c, m, q, hosts).value, ip);
      NamedHostSplit(c, m, hosts, DeployedPTR(c, m, q, hosts).value, ip);
    }
  }

  /** What is answered for a name: some address it stands for, and nothing only if it stands for none. */
  lemma LocalAExact(c: Settings, m: Moment, q: string)
    ensures LocalA(c, m, q).Some? ==>
            || NamedStatic(c, q, LocalA(c, m, q).value)
            || (c.registerDeployed && NamedHost(c, m, c.hosts, q, LocalA(c, m, q).value))
    ensures LocalA(c, m, q).None? <==>
            forall ip :: !NamedStatic(c, q, ip) && !(c.registerDeployed && NamedHost(c, m, c.hosts, q, ip))
  {
    StaticAFacts(c, |c.statics|, q);
    DeployedAFacts(c, m, q, c.hosts);
    if q in StaticA(c, |c.statics|) {
      assert NamedStatic(c, q, StaticA(c, |c.statics|)[q]);
    }
  }

  /**
   Forward and reverse answers agree, whatever the tracker and the allocator hold: when no
   name stands for two addresses at this moment, a name returned for a reverse query
   resolves to an address whose reverse name is that query.
   */
  lemma ForwardReverse(c: Settings, m: Moment, q: string)
    requires forall name, ip, jp | Named(c, m, name, ip) && Named(c, m, name, jp) :: ip == jp
    requires LocalPTR(c, m, q).Some?
    ensures var a := LocalA(c, m, LocalPTR(c, m, q).value); a.Some? && Lower(ReverseAddr(a.value)) == q
  {
    var name := LocalPTR(c, m, q).value;
    LocalAExact(c, m, name);
    if q in StaticPTR(c, |c.statics|) {
      StaticPTRFacts(c, |c.statics|, q);
      var ip :| Lower(ReverseAddr(ip)) == q && NamedStatic(c, name, ip);
      assert Named(c, m, name, ip) && Named(c, m, name, LocalA(c, m, name).value);
    } else {
      DeployedPTRFacts(c, m, q, c.hosts);
      var ip :| Lower(ReverseAddr(ip)) == q && NamedHost(c, m, c.hosts, name, ip);
      assert Named(c, m, name, ip) && Named(c, m, name, LocalA(c, m, name).value);
    }
  }

  /** Distinct names, over static records and host names together, are enough. */
  lemma DistinctNamesSuffice(c: Settings, m: Moment, name: string, ip: U32, jp: U32)
    requires forall i, j | 0 <= i < j < |c.statics| ::
               Fqdn(c.domain, c.statics[i].name) != Fqdn(c.domain, c.statics[j].name)
    requires forall i, j | 0 <= i < j < |c.hosts| && c.hosts[i].hostname != "" && c.hosts[j].hostname != "" ::
               Fqdn(c.domain, c.hosts[i].hostname) != Fqdn(c.domain, c.hosts[j].hostname)
    requires forall i, j | 0 <= i < |c.statics| && 0 <= j < |c.hosts| && c.hosts[j].hostname != "" ::
               Fqdn(c.domain, c.statics[i].name) != Fqdn(c.domain, c.hosts[j].hostname)
    requires Named(c, m, name, ip) && Named(c, m, name, jp)
    ensures ip == jp
  {
    if NamedHost(c, m, c.hosts, name, ip) && NamedHost(c, m, c.hosts, name, jp) {
      var h :| h in c.hosts && NamesIt(c, m, h, name, ip);
      var g :| g in c.hosts && NamesIt(c, m, g, name, jp);
      var i :| 0 <= i < |c.hosts| && c.hosts[i] == h;
      var j :| 0 <= j < |c.hosts| && c.hosts[j] == g;
      assert i == j;
    }
  }

  /**
   Every host comes from a static binding, so the allocator's pool never decides an answer:
   a deployed host resolves to its bound address whatever leases exist.
   */
  lemma HostsAreStatic(m: Moment, t: LeaseModel.Tables, later: int, h: Host)
    requires Canon(h.mac) in m.site.statics
    ensures HostAddress(m, h) == HostAddress(m.(tables := t, now := later), h)
    ensures HostAddress(m, h).Some? ==> HostAddress(m, h).value == m.site.statics[Canon(h.mac)].ip
  {
  }

  // ---------- what the answers mean ----------

  /** The host has a name, its MAC is recorded as deployed, and the allocator has a lease for it. */
  predicate Registered(m: Moment, h: Host) {
    h.hostname != "" && Canon(h.mac) in m.deployed && LeaseModel.Lookup(m.site, m.tables, m.now, Canon(h.mac)).Some?
  }

  function LeasedAddress(m: Moment, h: Host): U32
    requires Registered(m, h)
  {
    LeaseModel.Lookup(m.site, m.tables, m.now, Canon(h.mac)).value.ip
  }

  predicate Resolves(c: Settings, m: Moment, h: Host, name: string) {
    Registered(m, h) && Fqdn(c.domain, h.hostname) == name
  }

  /** The first registered host with the name has this address. */
  ghost predicate FirstResolves(c: Settings, m: Moment, name: string, ip: U32) {
    exists i :: 0 <= i < |c.hosts| && Resolves(c, m, c.hosts[i], name) && ip == LeasedAddress(m, c.hosts[i])
      && forall j | 0 <= j < i :: !Resolves(c, m, c.hosts[j], name)
  }

  predicate Reverses(m: Moment, h: Host, q: string) {
    Registered(m, h) && ReverseName(LeasedAddress(m, h)) == q
  }

  /** The first registered host with an address of this reverse name has this name. */
  ghost predicate FirstReverses(c: Settings, m: Moment, q: string, name: string) {
    exists i :: 0 <= i < |c.hosts| && Reverses(m, c.hosts[i], q) && name == Fqdn(c.domain, c.hosts[i].hostname)
      && forall j | 0 <= j < i :: !Reverses(m, c.hosts[j], q)
  }

  /** What may be answered for a name: the last static record with it, else the first registered host. */
  ghost predicate RightAddress(c: Settings, m: Moment, name: string, ip: Option<U32>) {
    && (forall i: nat | LastWithName(c, i) && NameOf(c, i) == name :: ip == Some(c.statics[i].ip))
    && ((forall i | 0 <= i < |c.statics| :: NameOf(c, i) != name) ==> RightHostAddress(c, m, name, ip))
  }

  ghost predicate RightHostAddress(c: Settings, m: Moment, name: string, ip: Option<U32>) {
    && (ip.Some? ==> c.registerDeployed && FirstResolves(c, m, name, ip.value))
    && (ip.None? ==> !c.registerDeployed || forall h | h in c.hosts :: !Resolves(c, m, h, name))
  }

  /** And for a reverse name. */
  ghost predicate RightName(c: Settings, m: Moment, q: string, name: Option<string>) {
    && (forall i: nat | LastWithAddress(c, i) && ReverseOf(c, i) == q :: name == Some(NameOf(c, i)))
    && ((forall i | 0 <= i < |c.statics| :: ReverseOf(c, i) != q) ==> RightHostName(c, m, q, name))
  }

  ghost predicate RightHostName(c: Settings, m: Moment, q: string, name: Option<string>) {
    && (name.Some? ==> c.registerDeployed && FirstReverses(c, m, q, name.value))
    && (name.None? ==> !c.registerDeployed || forall h | h in c.hosts :: !Reverses(m, h, q))
  }

  lemma StaticAddressIsRight(c: Settings, m: Moment, name: string)
    requires name in StaticA(c, |c.statics|)
    ensures RightAddress(c, m, name, Some(StaticA(c, |c.statics|)[name]))
  {
    var j := ForwardOwner(c, |c.statics|, name);
    forall i: nat | LastWithName(c, i) && NameOf(c, i) == name ensures i == j {
    }
  }

  lemma StaticNameIsRight(c: Settings, m: Moment, q: string)
    requires q in StaticPTR(c, |c.statics|)
    ensures RightName(c, m, q, Some(StaticPTR(c, |c.statics|)[q]))
  {
    var j := ReverseOwner(c, |c.statics|, q);
    forall i: nat | LastWithAddress(c, i) && ReverseOf(c, i) == q ensures i == j {
      ReverseNameInjective(c.statics[i].ip, c.statics[j].ip);
    }
  }

  /** In both tables the last static record counts: of its name, and of its address. */
  ghost predicate RightTables(c: Settings, a: map<string, U32>, ptr: map<string, string>) {
    && (forall i: nat | LastWithName(c, i) :: NameOf(c, i) in a && a[NameOf(c, i)] == c.statics[i].ip)
    && (forall i: nat | LastWithAddress(c, i) :: ReverseOf(c, i) in ptr && ptr[ReverseOf(c, i)] == NameOf(c, i))
  }

  lemma LastRecordsCount(c: Settings)
    ensures RightTables(c, StaticA(c, |c.statics|), StaticPTR(c, |c.statics|))
  {
    var a, ptr := StaticA(c, |c.statics|), StaticPTR(c, |c.statics|);
    forall i: nat | LastWithName(c, i) ensures NameOf(c, i) in a && a[NameOf(c, i)] == c.statics[i].ip {
      LastNameCounts(c, i);
    }
    forall i: nat | LastWithAddress(c, i) ensures ReverseOf(c, i) in ptr && ptr[ReverseOf(c, i)] == NameOf(c, i) {
      LastAddressCounts(c, i);
    }
  }

  lemma LastNameCounts(c: Settings, i: nat)
    requires LastWithName(c, i)
    ensures NameOf(c, i) in StaticA(c, |c.statics|) && StaticA(c, |c.statics|)[NameOf(c, i)] == c.statics[i].ip
  {
    ForwardEntry(c, |c.statics|, i);
    var j := ForwardOwner(c, |c.statics|, NameOf(c, i));
  }

  lemma LastAddressCounts(c: Settings, i: nat)
    requires LastWithAddress(c, i)
    ensures ReverseOf(c, i) in StaticPTR(c, |c.statics|) && StaticPTR(c, |c.statics|)[ReverseOf(c, i)] == NameOf(c, i)
  {
    ReverseEntry(c, |c.statics|, i);
    var j := ReverseOwner(c, |c.statics|, ReverseOf(c, i));
    ReverseNameInjective(c.statics[j].ip, c.statics[i].ip);
  }

  /** Where no static record answers the tables have no entry. */
  lemma NoStatic(c: Settings, name: string, q: string)
    ensures (exists i :: 0 <= i < |c.statics| && NameOf(c, i) == name) <==> name in StaticA(c, |c.statics|)
    ensures q !in StaticPTR(c, |c.statics|) ==> forall i | 0 <= i < |c.statics| :: ReverseOf(c, i) != q
  {
    StaticAFacts(c, |c.statics|, name);
    if i :| 0 <= i < |c.statics| && ReverseOf(c, i) == q {
      ReverseEntry(c, |c.statics|, i);
    }
    assert (exists i :: 0 <= i < |c.statics| && NameOf(c, i) == name) <==>
           exists i :: 0 <= i < |c.statics| && Fqdn(c.domain, c.statics[i].name) == name by {
      if i :| 0 <= i < |c.statics| && Fqdn(c.domain, c.statics[i].name) == name { assert NameOf(c, i) == name; }
    }
  }

  lemma {:induction false} EntryMade(keys: seq<string>, names: seq<string>, i: nat)
    requires |keys| == |names| && i < |keys|
    ensures keys[i] in TableOf(keys, names)
  {
    if i < |keys| - 1 { EntryMade(keys[..|keys| - 1], names[..|keys| - 1], i); }
  }

  lemma ReverseEntry(c: Settings, n: nat, i: nat)
    requires i < n <= |c.statics|
    ensures ReverseOf(c, i) in StaticPTR(c, n)
  {
    var keys := seq(n, k requires 0 <= k < n => ReverseOf(c, k));
    var names := seq(n, k requires 0 <= k < n => NameOf(c, k));
    ReverseTable(c, keys, names);
    EntryMade(keys, names, i);
    assert keys[i] == ReverseOf(c, i);
  }

  // ---------- the server ----------

  class Server {
    const settings: Settings
    const leaser: Allocator
    const tracker: Tracker.Tracker
    const staticA: map<string, U32>
    const staticPTR: map<string, string>
    const wildcards: seq<Wildcard>

    ghost predicate Valid()
      reads this, leaser
    {
      && leaser.Valid()
      && staticA == StaticA(settings, |settings.statics|) && staticPTR == StaticPTR(settings, |settings.statics|)
      && multiset(wildcards) == multiset(Entries(settings.wildcards)) && LongestFirst(wildcards)
    }

    ghost function Now(now: int): Moment
      reads this, leaser, tracker
    {
      Moment(leaser.site, leaser.Tables(), tracker.deployed, now)
    }

    /** `New`.  The library sort leaves entries of equal length in any order. */
    constructor (settings: Settings, leaser: Allocator, tracker: Tracker.Tracker)
      requires leaser.Valid()
      ensures Valid() && this.settings == settings && this.leaser == leaser && this.tracker == tracker
    {
      this.settings, this.leaser, this.tracker := settings, leaser, tracker;
      var a, ptr := Records(settings);
      staticA, staticPTR := a, ptr;
      var sorted := Forwarders(settings.wildcards);
      wildcards := sorted;
    }

    /** The table loop of `New`. */
    static method Records(settings: Settings) returns (a: map<string, U32>, ptr: map<string, string>)
      ensures a == StaticA(settings, |settings.statics|) && ptr == StaticPTR(settings, |settings.statics|)
      ensures RightTables(settings, a, ptr)
    {
      a, ptr := map[], map[];
      for i := 0 to |settings.statics|
        invariant a == StaticA(settings, i) && ptr == StaticPTR(settings, i)
      {
        var fqdn := Fqdn(settings.domain, settings.statics[i].name);
        a := a[fqdn := settings.statics[i].ip];
        assert a == StaticA(settings, i + 1);
        ptr := ptr[Lower(ReverseAddr(settings.statics[i].ip)) := fqdn];
        assert ptr == StaticPTR(settings, i + 1);
      }
      LastRecordsCount(settings);
    }

    /** The forwarder loop of `New`, and the sort. */
    static method Forwarders(ws: seq<Wildcard>) returns (sorted: seq<Wildcard>)
      ensures multiset(sorted) == multiset(Entries(ws)) && LongestFirst(sorted)
      ensures forall e :: e in sorted <==> SomeEntryOf(ws, e)
    {
      var entries: seq<Wildcard> := [];
      for i := 0 to |ws|
        invariant entries == Entries(ws[..i])
      {
        assert ws[..i + 1][..i] == ws[..i];
        var suf := Lower(TrimDots(ws[i].suffix));
        if suf == "" {
          continue;
        }
        entries := entries + [Wildcard("." + suf + ".", ws[i].upstream)];
      }
      assert ws[..|ws|] == ws;
      sorted := SortByLength(entries);
      EntriesExact(ws);
      SameElements(sorted, Entries(ws));
    }

    method DeployedAddress(qname: string, now: int) returns (ip: Option<U32>)
      requires Valid()
      ensures ip == DeployedA(settings, Now(now), qname, settings.hosts)
      ensures if ip.Some? then FirstResolves(settings, Now(now), qname, ip.value)
              else forall h | h in settings.hosts :: !Resolves(settings, Now(now), h, qname)
    {
      var hosts := settings.hosts;
      for i := 0 to |hosts|
        invariant forall j | 0 <= j < i :: !Resolves(settings, Now(now), hosts[j], qname)
        invariant DeployedA(settings, Now(now), qname, hosts) == DeployedA(settings, Now(now), qname, hosts[i..])
      {
        var st := hosts[i];
        assert hosts[i..][1..] == hosts[i + 1..];
        if st.hostname == "" { continue; }
        if Fqdn(settings.domain, st.hostname) != qname { continue; }
        var deployed := tracker.IsDeployed(st.mac);
        if !deployed { continue; }
        var l := leaser.Lookup(st.mac, now);
        if l.None? { continue; }
        assert Resolves(settings, Now(now), hosts[i], qname);
        return Some(l.value.ip);
      }
      return None;
    }

    method LocalAddress(qname: string, now: int) returns (ip: Option<U32>)
      requires Valid()
      ensures ip == LocalA(settings, Now(now), qname) && RightAddress(settings, Now(now), qname, ip)
      ensures tracker.deployed == map[] && (forall i | 0 <= i < |settings.statics| :: NameOf(settings, i) != qname) ==> ip == None
    {
      NoStatic(settings, qname, qname);
      if qname in staticA {
        StaticAddressIsRight(settings, Now(now), qname);
        return Some(staticA[qname]);
      }
      if settings.registerDeployed {
        ip := DeployedAddress(qname, now);
        return;
      }
      return None;
    }

    method LocalName(qname: string, now: int) returns (name: Option<string>)
      requires Valid()
      ensures name == LocalPTR(settings, Now(now), qname) && RightName(settings, Now(now), qname, name)
      ensures tracker.deployed == map[] && (forall i | 0 <= i < |settings.statics| :: ReverseOf(settings, i) != qname)
              ==> name == None
    {
      NoStatic(settings, qname, qname);
      if qname in staticPTR {
        StaticNameIsRight(settings, Now(now), qname);
        return Some(staticPTR[qname]);
      }
      if settings.registerDeployed {
        name := DeployedName(qname, now);
        return;
      }
      return None;
    }

    /** The host loop of `localPTR`. */
    method DeployedName(qname: string, now: int) returns (name: Option<string>)
      requires Valid()
      ensures name == DeployedPTR(settings, Now(now), qname, settings.hosts)
      ensures if name.Some? then FirstReverses(settings, Now(now), qname, name.value)
              else forall h | h in settings.hosts :: !Reverses(Now(now), h, qname)
    {
      var hosts := settings.hosts;
      for i := 0 to |hosts|
        invariant DeployedPTR(settings, Now(now), qname, hosts) == DeployedPTR(settings, Now(now), qname, hosts[i..])
        invariant forall j | 0 <= j < i :: !Reverses(Now(now), hosts[j], qname)
      {
        var st := hosts[i];
        assert hosts[i..][1..] == hosts[i + 1..];
        if st.hostname == "" { continue; }
        var deployed := tracker.IsDeployed(st.mac);
        if !deployed { continue; }
        var l := leaser.Lookup(st.mac, now);
        if l.None? { continue; }
        assert Registered(Now(now), hosts[i]);
        if Lower(ReverseAddr(l.value.ip)) == qname {
          return Some(Fqdn(settings.domain, st.hostname));
        }
      }
      return None;
    }

    /** `upstreamsFor`: a longest matching entry decides; without one the default does. */
    method UpstreamsFor(qname: string) returns (upstreams: seq<string>)
      requires Valid()
      ensures (forall e | e in wildcards :: !Matches(e, qname)) ==> upstreams == settings.upstreams
      ensures forall e | e in wildcards && Matches(e, qname) :: ChosenFrom(wildcards, qname, upstreams)
      ensures RightUpstreams(settings, qname, upstreams)
    {
      for i := 0 to |wildcards|
        invariant forall j | 0 <= j < i :: !Matches(wildcards[j], qname)
      {
        if HasSuffix(qname, wildcards[i].suffix) || TrimFinalDot(qname) == TrimDots(wildcards[i].suffix) {
          FirstIsLongest(wildcards, qname, i);
          ChosenIsRight(settings, wildcards, qname, wildcards[i]);
          return wildcards[i].upstream;
        }
      }
      DefaultIsRight(settings, wildcards, qname);
      return settings.upstreams;
    }
  }

  ghost predicate LongestMatch(ws: seq<Wildcard>, qname: string, e: Wildcard) {
    e in ws && Matches(e, qname) && forall f | f in ws && Matches(f, qname) :: |f.suffix| <= |e.suffix|
  }

  ghost predicate ChosenFrom(ws: seq<Wildcard>, qname: string, upstreams: seq<string>) {
    exists e :: LongestMatch(ws, qname, e) && upstreams == e.upstream
  }

  lemma FirstIsLongest(ws: seq<Wildcard>, qname: string, i: nat)
    requires LongestFirst(ws) && i < |ws| && Matches(ws[i], qname) && forall j | 0 <= j < i :: !Matches(ws[j], qname)
    ensures LongestMatch(ws, qname, ws[i]) && ChosenFrom(ws, qname, ws[i].upstream)
  {
    assert LongestMatch(ws, qname, ws[i]);
  }

  lemma ChosenIsRight(c: Settings, sorted: seq<Wildcard>, qname: string, e: Wildcard)
    requires multiset(sorted) == multiset(Entries(c.wildcards)) && LongestMatch(sorted, qname, e)
    ensures RightUpstreams(c, qname, e.upstream)
  {
    EntriesExact(c.wildcards);
    SameElements(sorted, Entries(c.wildcards));
    MatchIsUnder(c.wildcards, sorted, qname, e);
  }

  lemma DefaultIsRight(c: Settings, sorted: seq<Wildcard>, qname: string)
    requires multiset(sorted) == multiset(Entries(c.wildcards)) && forall j | 0 <= j < |sorted| :: !Matches(sorted[j], qname)
    ensures RightUpstreams(c, qname, c.upstreams)
  {
    EntriesExact(c.wildcards);
    SameElements(sorted, Entries(c.wildcards));
    NoMatchIsUnder(c.wildcards, sorted, qname);
  }

  predicate IsLongest(ws: seq<Wildcard>, i: int) {
    0 <= i < |ws| && forall k | 0 <= k < |ws| :: |ws[k].suffix| <= |ws[i].suffix|
  }

  lemma {:induction false} LongestExists(ws: seq<Wildcard>) returns (i: nat)
    requires ws != []
    ensures IsLongest(ws, i)
  {
    i := 0;
    if |ws| > 1 {
      var j := LongestExists(ws[1..]);
      forall k | 0 < k < |ws| ensures |ws[k].suffix| <= |ws[j + 1].suffix| {
        assert ws[k] == ws[1..][k - 1];
      }
      if |ws[j + 1].suffix| > |ws[0].suffix| { i := j + 1; }
    }
  }

  ghost predicate AllAbove(out: seq<Wildcard>, rest: seq<Wildcard>) {
    forall i, j | 0 <= i < |out| && 0 <= j < |rest| :: |out[i].suffix| >= |rest[j].suffix|
  }

  /** Moving a longest entry of the rest to the end of the output. */
  lemma PickLongest(out: seq<Wildcard>, rest: seq<Wildcard>, i: nat)
    requires IsLongest(rest, i) && LongestFirst(out) && AllAbove(out, rest)
    ensures var out', rest' := out + [rest[i]], rest[..i] + rest[i + 1..];
      && multiset(out') + multiset(rest') == multiset(out) + multiset(rest)
      && LongestFirst(out') && AllAbove(out', rest')
  {
    var rest' := rest[..i] + rest[i + 1..];
    assert rest == rest[..i] + [rest[i]] + rest[i + 1..];
    forall j | 0 <= j < |rest'| ensures exists k :: 0 <= k < |rest| && rest'[j] == rest[k] {
      assert rest'[j] == rest[if j < i then j else j + 1];
    }
  }

  /** `sort.Slice` by descending length; entries of equal length may come out in any order. */
  method SortByLength(es: seq<Wildcard>) returns (out: seq<Wildcard>)
    ensures multiset(out) == multiset(es) && LongestFirst(out)
  {
    out := [];
    var rest := es;
    while rest != []
      invariant multiset(out) + multiset(rest) == multiset(es)
      invariant LongestFirst(out) && AllAbove(out, rest)
      decreases |rest|
    {
      ghost var longest := LongestExists(rest);
      var i :| 0 <= i < |rest| && IsLongest(rest, i);
      PickLongest(out, rest, i);
      out := out + [rest[i]];
      rest := rest[..i] + rest[i + 1..];
    }
  }
}
