/** Exactly when the forward and reverse answers of the DNS server agree. */
module DnsAgreement {
  import opened Wrappers
  import opened IpText
  import opened DnsNames
  import opened DnsServer

  // ---------- which record answers ----------

  /** The first host that has its address now. */
  predicate FirstWithAddress(m: Moment, hosts: seq<Host>, i: nat) {
    && i < |hosts| && HostAddress(m, hosts[i]).Some?
    && forall k | 0 <= k < i :: HostAddress(m, hosts[k]) != HostAddress(m, hosts[i])
  }

  predicate Active(c: Settings, m: Moment, h: Host, name: string) {
    Fqdn(c.domain, h.hostname) == name && HostAddress(m, h).Some?
  }

  /** The first host with its name that has an address now. */
  predicate FirstWithName(c: Settings, m: Moment, hosts: seq<Host>, i: nat, name: string) {
    i < |hosts| && Active(c, m, hosts[i], name) && forall k | 0 <= k < i :: !Active(c, m, hosts[k], name)
  }

  predicate StaticName(c: Settings, name: string) {
    exists i :: 0 <= i < |c.statics| && NameOf(c, i) == name
  }

  predicate StaticAddress(c: Settings, v: U32) {
    exists i :: 0 <= i < |c.statics| && c.statics[i].ip == v
  }

  lemma {:induction false} FirstReverse(c: Settings, m: Moment, q: string, hosts: seq<Host>, i: nat)
    requires FirstWithAddress(m, hosts, i) && ReverseName(HostAddress(m, hosts[i]).value) == q
    ensures DeployedPTR(c, m, q, hosts) == Some(Fqdn(c.domain, hosts[i].hostname))
  {
    if i > 0 {
      assert HostAddress(m, hosts[0]) != HostAddress(m, hosts[i]);
      if HostAddress(m, hosts[0]).Some? {
        ReverseNameInjective(HostAddress(m, hosts[0]).value, HostAddress(m, hosts[i]).value);
      }
      forall k | 0 <= k < i - 1 ensures HostAddress(m, hosts[1..][k]) != HostAddress(m, hosts[i]) {
        assert hosts[1..][k] == hosts[k + 1];
      }
      FirstReverse(c, m, q, hosts[1..], i - 1);
    }
  }

  lemma {:induction false} ReverseFirst(c: Settings, m: Moment, q: string, hosts: seq<Host>) returns (i: nat)
    requires DeployedPTR(c, m, q, hosts).Some?
    ensures FirstWithAddress(m, hosts, i) && ReverseName(HostAddress(m, hosts[i]).value) == q
    ensures DeployedPTR(c, m, q, hosts) == Some(Fqdn(c.domain, hosts[i].hostname))
  {
    if HostAddress(m, hosts[0]).Some? && ReverseName(HostAddress(m, hosts[0]).value) == q {
      i := 0;
    } else {
      var j := ReverseFirst(c, m, q, hosts[1..]);
      i := j + 1;
      FirstShifts(m, hosts, j);
    }
  }

  lemma FirstShifts(m: Moment, hosts: seq<Host>, j: nat)
    requires hosts != [] && FirstWithAddress(m, hosts[1..], j) && HostAddress(m, hosts[0]) != HostAddress(m, hosts[1..][j])
    ensures FirstWithAddress(m, hosts, j + 1)
  {
    forall k | 0 <= k < j + 1 ensures HostAddress(m, hosts[k]) != HostAddress(m, hosts[j + 1]) {
      if k > 0 { assert hosts[k] == hosts[1..][k - 1]; }
    }
  }

  lemma {:induction false} FirstForward(c: Settings, m: Moment, name: string, hosts: seq<Host>, j: nat)
    requires FirstWithName(c, m, hosts, j, name)
    ensures DeployedA(c, m, name, hosts) == HostAddress(m, hosts[j])
  {
    if j > 0 {
      assert !Active(c, m, hosts[0], name);
      forall k | 0 <= k < j - 1 ensures !Active(c, m, hosts[1..][k], name) {
        assert hosts[1..][k] == hosts[k + 1];
      }
      FirstForward(c, m, name, hosts[1..], j - 1);
    }
  }

  lemma {:induction false} FirstActive(c: Settings, m: Moment, name: string, hosts: seq<Host>, i: nat) returns (j: nat)
    requires i < |hosts| && Active(c, m, hosts[i], name)
    ensures FirstWithName(c, m, hosts, j, name)
    decreases i
  {
    if k :| 0 <= k < i && Active(c, m, hosts[k], name) {
      j := FirstActive(c, m, name, hosts, k);
    } else {
      j := i;
    }
  }

  // ---------- agreement ----------

  /** The reverse answer for `q`, if there is one, resolves to an address with that reverse name. */
  predicate Agrees(c: Settings, m: Moment, q: string) {
    LocalPTR(c, m, q).Some? ==>
      var a := LocalA(c, m, LocalPTR(c, m, q).value);
      a.Some? && ReverseName(a.value) == q
  }

  /** The record that names an address and the record that answers for the name have the same address. */
  ghost predicate StaticsFit(c: Settings) {
    forall i: nat, j: nat | LastWithAddress(c, i) && LastWithName(c, j) && NameOf(c, i) == NameOf(c, j) ::
      c.statics[i].ip == c.statics[j].ip
  }

  /** No static record has the name of the host, and the first host to answer for the name has its address. */
  ghost predicate HostFits(c: Settings, m: Moment, i: nat)
    requires i < |c.hosts|
  {
    var name := Fqdn(c.domain, c.hosts[i].hostname);
    && !StaticName(c, name)
    && (forall j: nat | FirstWithName(c, m, c.hosts, j, name) :: HostAddress(m, c.hosts[j]) == HostAddress(m, c.hosts[i]))
  }

  /** The hosts whose name is a reverse answer: no static record has their address and they are first with it. */
  ghost predicate HostsFit(c: Settings, m: Moment) {
    forall i: nat | FirstWithAddress(m, c.hosts, i) && !StaticAddress(c, HostAddress(m, c.hosts[i]).value) :: HostFits(c, m, i)
  }

  lemma StaticReverse(c: Settings, m: Moment, i: nat)
    requires LastWithAddress(c, i)
    ensures LocalPTR(c, m, ReverseName(c.statics[i].ip)) == Some(NameOf(c, i))
  {
    ReverseEntry(c, |c.statics|, i);
    var k := ReverseOwner(c, |c.statics|, ReverseOf(c, i));
    ReverseNameInjective(c.statics[k].ip, c.statics[i].ip);
  }

  lemma NotStaticReverse(c: Settings, v: U32)
    requires !StaticAddress(c, v)
    ensures ReverseName(v) !in StaticPTR(c, |c.statics|)
  {
    if ReverseName(v) in StaticPTR(c, |c.statics|) {
      var k := ReverseOwner(c, |c.statics|, ReverseName(v));
      ReverseNameInjective(c.statics[k].ip, v);
    }
  }

  /** Agreement forces static records to fit. */
  lemma AgreementFitsStatics(c: Settings, m: Moment)
    requires forall q :: Agrees(c, m, q)
    ensures StaticsFit(c)
  {
    forall i: nat, j: nat | LastWithAddress(c, i) && LastWithName(c, j) && NameOf(c, i) == NameOf(c, j)
      ensures c.statics[i].ip == c.statics[j].ip
    {
      AgreementFitsPair(c, m, i, j);
    }
  }

  lemma AgreementFitsPair(c: Settings, m: Moment, i: nat, j: nat)
    requires LastWithAddress(c, i) && LastWithName(c, j) && NameOf(c, i) == NameOf(c, j)
    requires Agrees(c, m, ReverseName(c.statics[i].ip))
    ensures c.statics[i].ip == c.statics[j].ip
  {
    StaticReverse(c, m, i);
    ForwardEntry(c, |c.statics|, j);
    var k := ForwardOwner(c, |c.statics|, NameOf(c, j));
    assert k == j;
    ReverseNameInjective(c.statics[i].ip, c.statics[j].ip);
  }

  lemma HostReverse(c: Settings, m: Moment, i: nat, v: U32)
    requires c.registerDeployed && FirstWithAddress(m, c.hosts, i) && HostAddress(m, c.hosts[i]) == Some(v)
    requires !StaticAddress(c, v)
    ensures LocalPTR(c, m, ReverseName(v)) == Some(Fqdn(c.domain, c.hosts[i].hostname))
  {
    NotStaticReverse(c, v);
    FirstReverse(c, m, ReverseName(v), c.hosts, i);
  }

  lemma LocalStatic(c: Settings, m: Moment, name: string)
    requires StaticName(c, name) && LocalA(c, m, name).Some?
    ensures StaticAddress(c, LocalA(c, m, name).value)
  {
    var i :| 0 <= i < |c.statics| && NameOf(c, i) == name;
    ForwardEntry(c, |c.statics|, i);
    var j := ForwardOwner(c, |c.statics|, name);
  }

  lemma LocalHost(c: Settings, m: Moment, name: string, j: nat)
    requires c.registerDeployed && !StaticName(c, name) && FirstWithName(c, m, c.hosts, j, name)
    ensures LocalA(c, m, name) == HostAddress(m, c.hosts[j])
  {
    FirstForward(c, m, name, c.hosts, j);
    NoStaticForward(c, |c.statics|, name);
  }

  lemma {:induction false} NoStaticForward(c: Settings, n: nat, name: string)
    requires n <= |c.statics| && !StaticName(c, name)
    ensures name !in StaticA(c, n)
  {
    if n > 0 {
      NoStaticForward(c, n - 1, name);
      assert NameOf(c, n - 1) != name;
    }
  }

  /** Agreement on its address forces a host to fit. */
  lemma AgreementFitsHost(c: Settings, m: Moment, i: nat, v: U32)
    requires c.registerDeployed && FirstWithAddress(m, c.hosts, i) && HostAddress(m, c.hosts[i]) == Some(v)
    requires !StaticAddress(c, v) && Agrees(c, m, ReverseName(v))
    ensures HostFits(c, m, i)
  {
    var name := Fqdn(c.domain, c.hosts[i].hostname);
    HostReverse(c, m, i, v);
    ReverseNameInjective(LocalA(c, m, name).value, v);
    assert LocalA(c, m, name) == Some(v);
    if StaticName(c, name) {
      LocalStatic(c, m, name);
    }
    forall j: nat | FirstWithName(c, m, c.hosts, j, name) ensures HostAddress(m, c.hosts[j]) == Some(v) {
      LocalHost(c, m, name, j);
    }
  }

  lemma StaticsFitAgrees(c: Settings, m: Moment, q: string)
    requires StaticsFit(c) && q in StaticPTR(c, |c.statics|)
    ensures Agrees(c, m, q)
  {
    var i := ReverseOwner(c, |c.statics|, q);
    LastReverse(c, i);
    ForwardEntry(c, |c.statics|, i);
    var j := ForwardOwner(c, |c.statics|, NameOf(c, i));
    assert LastWithAddress(c, i) && LastWithName(c, j);
  }

  lemma LastReverse(c: Settings, i: nat)
    requires i < |c.statics| && forall k | i < k < |c.statics| :: ReverseOf(c, k) != ReverseOf(c, i)
    ensures LastWithAddress(c, i)
  {
    forall k | i < k < |c.statics| ensures c.statics[k].ip != c.statics[i].ip {
      assert ReverseOf(c, k) != ReverseOf(c, i);
    }
  }

  lemma HostsFitAgrees(c: Settings, m: Moment, q: string)
    requires c.registerDeployed && HostsFit(c, m) && q !in StaticPTR(c, |c.statics|)
    ensures Agrees(c, m, q)
  {
    if DeployedPTR(c, m, q, c.hosts).Some? {
      var i := ReverseFirst(c, m, q, c.hosts);
      var v, name := HostAddress(m, c.hosts[i]).value, Fqdn(c.domain, c.hosts[i].hostname);
      if StaticAddress(c, v) {
        StaticOwns(c, v);
      }
      assert HostFits(c, m, i);
      var j := FirstActive(c, m, name, c.hosts, i);
      LocalHost(c, m, name, j);
    }
  }

  lemma {:induction false} StaticOwns(c: Settings, v: U32)
    requires StaticAddress(c, v)
    ensures ReverseName(v) in StaticPTR(c, |c.statics|)
  {
    var i :| 0 <= i < |c.statics| && c.statics[i].ip == v;
    ReverseEntry(c, |c.statics|, i);
  }

  /**
   Forward and reverse answers agree for every query exactly when the static records fit
   and, if deployed hosts are registered, the hosts with an address now fit.
   */
  lemma AgreementIff(c: Settings, m: Moment)
    ensures (forall q :: Agrees(c, m, q)) <==> StaticsFit(c) && (c.registerDeployed ==> HostsFit(c, m))
  {
    if forall q :: Agrees(c, m, q) {
      AgreementFitsStatics(c, m);
      if c.registerDeployed {
        forall i: nat | FirstWithAddress(m, c.hosts, i) && !StaticAddress(c, HostAddress(m, c.hosts[i]).value)
          ensures HostFits(c, m, i)
        {
          AgreementFitsHost(c, m, i, HostAddress(m, c.hosts[i]).value);
        }
      }
    }
    if StaticsFit(c) && (c.registerDeployed ==> HostsFit(c, m)) {
      forall q ensures Agrees(c, m, q) {
        if q in StaticPTR(c, |c.statics|) {
          StaticsFitAgrees(c, m, q);
        } else if c.registerDeployed {
          HostsFitAgrees(c, m, q);
        }
      }
    }
  }
}
