/** The registry of nodes: nodes by identifier, and an index from every MAC of every node to it. */
module Store {
  import opened Wrappers
  import opened MacText
  import opened Node

  /** The registry on values: the MACs of each node, and the index. */
  datatype Registry = Registry(macs: map<string, seq<string>>, index: map<string, string>)

  /** The canonical forms of the MACs, empty ones dropped. */
  function Usable(macs: seq<string>): seq<string> {
    if macs == [] then []
    else
      var before, c := Usable(macs[..|macs| - 1]), Canon(macs[|macs| - 1]);
      if c == "" then before else before + [c]
  }

  lemma UsableOne(m: string)
    ensures Usable([m]) == if Canon(m) == "" then [] else [Canon(m)]
  {
    assert [m][..0] == [] && Usable([m][..0]) == [];
  }

  /** The usable MACs keep their order and their number. */
  lemma {:induction false} UsableJoins(a: seq<string>, b: seq<string>)
    ensures Usable(a + b) == Usable(a) + Usable(b)
  {
    if b == [] {
      assert a + b == a;
    } else {
      var n := |b| - 1;
      UsableJoins(a, b[..n]);
      assert (a + b)[..|a + b| - 1] == a + b[..n] && (a + b)[|a + b| - 1] == b[n];
    }
  }

  /** MAC number `i` of the list is usable and indexed. */
  predicate Leads(index: map<string, string>, macs: seq<string>, i: int) {
    0 <= i < |macs| && Canon(macs[i]) != "" && Canon(macs[i]) in index
  }

  ghost predicate LeadsFirst(index: map<string, string>, macs: seq<string>, i: int) {
    Leads(index, macs, i) && forall j | 0 <= j < i :: !Leads(index, macs, j)
  }

  /** The search over the usable MACs, said of the list as it came: the first indexed one leads to its node. */
  lemma {:induction false} FoundLeads(index: map<string, string>, macs: seq<string>)
    ensures Found(index, Usable(macs)).None? <==> forall i :: !Leads(index, macs, i)
    ensures forall i | LeadsFirst(index, macs, i) :: Found(index, Usable(macs)) == Some(index[Canon(macs[i])])
  {
    if macs != [] {
      var m, rest := macs[0], macs[1..];
      assert macs == [m] + rest;
      FoundLeads(index, rest);
      FoundHead(index, m, rest);
      SomeLeads(index, macs, m, rest);
      forall i | LeadsFirst(index, macs, i) ensures Found(index, Usable(macs)) == Some(index[Canon(macs[i])]) {
        if i > 0 { LeadsLater(index, macs, m, rest, i); }
      }
    }
  }

  lemma SomeLeads(index: map<string, string>, macs: seq<string>, m: string, rest: seq<string>)
    requires macs == [m] + rest
    ensures (exists i :: Leads(index, macs, i)) <==> Leads(index, macs, 0) || exists i :: Leads(index, rest, i)
  {
    if i :| Leads(index, rest, i) {
      assert macs[i + 1] == rest[i] && Leads(index, macs, i + 1);
    }
    if i :| Leads(index, macs, i) && i > 0 {
      assert macs[i] == rest[i - 1] && Leads(index, rest, i - 1);
    }
  }

  lemma FoundHead(index: map<string, string>, m: string, rest: seq<string>)
    ensures Found(index, Usable([m] + rest)) ==
            if Canon(m) != "" && Canon(m) in index then Some(index[Canon(m)]) else Found(index, Usable(rest))
  {
    UsableOne(m);
    UsableJoins([m], rest);
    if Canon(m) == "" {
      assert [] + Usable(rest) == Usable(rest);
    } else {
      assert ([Canon(m)] + Usable(rest))[1..] == Usable(rest);
    }
  }

  lemma LeadsLater(index: map<string, string>, macs: seq<string>, m: string, rest: seq<string>, i: int)
    requires macs == [m] + rest && LeadsFirst(index, macs, i) && i > 0
    ensures LeadsFirst(index, rest, i - 1) && !Leads(index, macs, 0) && rest[i - 1] == macs[i]
  {
    forall j | 0 <= j < i - 1 ensures !Leads(index, rest, j) {
      assert !Leads(index, macs, j + 1) && macs[j + 1] == rest[j];
    }
  }

  /** The node of the first MAC that is indexed. */
  function Found(index: map<string, string>, macs: seq<string>): Option<string> {
    if macs == [] then None
    else if macs[0] in index then Some(index[macs[0]])
    else Found(index, macs[1..])
  }

  function IndexAll(index: map<string, string>, macs: seq<string>, uuid: string): map<string, string> {
    if macs == [] then index else IndexAll(index, macs[..|macs| - 1], uuid)[macs[|macs| - 1] := uuid]
  }

  /** `GetOrCreate`. */
  function Register(r: Registry, macs: seq<string>, uuid: string): Registry {
    var canon := Usable(macs);
    if canon == [] || Found(r.index, canon).Some? then r
    else Registry(r.macs[uuid := canon], IndexAll(r.index, canon, uuid))
  }

  /** Every index entry points to a stored node that lists the MAC; every MAC of every node is indexed to it. */
  ghost predicate Indexed(r: Registry) {
    && (forall m | m in r.index :: r.index[m] in r.macs && m in r.macs[r.index[m]])
    && (forall u, m | u in r.macs && m in r.macs[u] :: m in r.index && r.index[m] == u)
  }

  ghost predicate Extends(r: Registry, later: Registry) {
    && (forall u | u in r.macs :: u in later.macs && later.macs[u] == r.macs[u])
    && (forall m | m in r.index :: m in later.index && later.index[m] == r.index[m])
  }

  lemma {:induction false} IndexAllFacts(index: map<string, string>, macs: seq<string>, uuid: string)
    ensures var all := IndexAll(index, macs, uuid);
      && (forall m :: m in all <==> m in index || m in macs)
      && (forall m | m in all :: all[m] == if m in macs then uuid else index[m])
  {
    if macs != [] {
      var n := |macs| - 1;
      IndexAllFacts(index, macs[..n], uuid);
      forall m ensures m in macs <==> m in macs[..n] || m == macs[n] {
        assert macs == macs[..n] + [macs[n]];
      }
    }
  }

  lemma {:induction false} FoundFacts(index: map<string, string>, macs: seq<string>)
    ensures Found(index, macs).None? <==> forall m | m in macs :: m !in index
    ensures Found(index, macs).Some? ==> exists m :: m in macs && m in index && index[m] == Found(index, macs).value
  {
    if macs != [] {
      forall m ensures m in macs <==> m == macs[0] || m in macs[1..] {
        assert macs == [macs[0]] + macs[1..];
      }
      FoundFacts(index, macs[1..]);
      if macs[0] in index { assert macs[0] in macs; }
    }
  }

  /** Registration with a fresh identifier keeps the index exact and moves no entry. */
  lemma RegisterKeeps(r: Registry, macs: seq<string>, uuid: string)
    requires Indexed(r) && uuid !in r.macs
    ensures Indexed(Register(r, macs, uuid)) && Extends(r, Register(r, macs, uuid))
  {
    var canon := Usable(macs);
    FoundFacts(r.index, canon);
    IndexAllFacts(r.index, canon, uuid);
  }

  /** Different nodes share no MAC. */
  lemma MacsDisjoint(r: Registry, u: string, v: string, m: string)
    requires Indexed(r) && u in r.macs && v in r.macs && m in r.macs[u] && m in r.macs[v]
    ensures u == v
  {
    assert r.index[m] == u;
  }

  /** The node that a lookup is answered with. */
  function Returned(r: Registry, macs: seq<string>, uuid: string): Option<string> {
    if Usable(macs) == [] then None
    else if Found(r.index, Usable(macs)).Some? then Found(r.index, Usable(macs))
    else Some(uuid)
  }

  lemma ReturnedIsStored(r: Registry, macs: seq<string>, uuid: string)
    requires Indexed(r) && Returned(r, macs, uuid).Some?
    ensures Returned(r, macs, uuid).value in Register(r, macs, uuid).macs
  {
    FoundFacts(r.index, Usable(macs));
  }

  /**
   A usable MAC of the list belongs to the node that the lookup returns exactly if it creates the
   node or the MAC led to it before.
  */
  lemma ReturnedHas(r: Registry, macs: seq<string>, uuid: string, m: string)
    requires Indexed(r) && uuid !in r.macs && Usable(macs) != [] && m in Usable(macs)
    ensures var u := Returned(r, macs, uuid).value;
      && u in Register(r, macs, uuid).macs
      && (m in Register(r, macs, uuid).macs[u] <==> Found(r.index, Usable(macs)).None? || Found(r.index, [m]) == Some(u))
  {
    ReturnedIsStored(r, macs, uuid);
    assert Found(r.index, [m]) == if m in r.index then Some(r.index[m]) else None;
  }

  /**
   Exactly when every usable MAC of the list belongs to the node that the lookup returns:
   when it created the node, or when every one of them led to that node already.
   */
  lemma LookupCovers(r: Registry, macs: seq<string>, uuid: string)
    requires Indexed(r) && uuid !in r.macs && Usable(macs) != []
    ensures var u := Returned(r, macs, uuid).value;
      && u in Register(r, macs, uuid).macs
      && ((forall m | m in Usable(macs) :: m in Register(r, macs, uuid).macs[u]) <==>
          Found(r.index, Usable(macs)).None? || forall m | m in Usable(macs) :: Found(r.index, [m]) == Some(u))
  {
    ReturnedIsStored(r, macs, uuid);
    forall m | m in Usable(macs)
      ensures m in Register(r, macs, uuid).macs[Returned(r, macs, uuid).value] <==>
              Found(r.index, Usable(macs)).None? || Found(r.index, [m]) == Returned(r, macs, uuid)
    {
      ReturnedHas(r, macs, uuid, m);
    }
    if Found(r.index, Usable(macs)).Some? {
      forall m | m in Usable(macs)
        ensures m in Register(r, macs, uuid).macs[Returned(r, macs, uuid).value] <==>
                Found(r.index, [m]) == Returned(r, macs, uuid)
      {
        ReturnedHas(r, macs, uuid, m);
      }
    }
  }

  /** A run of registrations, each with a fresh identifier. */
  ghost predicate History(rs: seq<Registry>) {
    && rs != [] && rs[0] == Registry(map[], map[])
    && forall i | 0 <= i < |rs| - 1 :: Registers(rs[i], rs[i + 1])
  }

  ghost predicate Registers(r: Registry, r': Registry) {
    exists macs, uuid :: uuid !in r.macs && r' == Register(r, macs, uuid)
  }

  lemma RegistersKeeps(r: Registry, r': Registry)
    requires Indexed(r) && Registers(r, r')
    ensures Indexed(r') && Extends(r, r')
  {
    var macs, uuid :| uuid !in r.macs && r' == Register(r, macs, uuid);
    RegisterKeeps(r, macs, uuid);
  }

  lemma {:induction false} HistoryIndexed(rs: seq<Registry>, i: nat, j: nat)
    requires History(rs) && i <= j < |rs|
    ensures Indexed(rs[j]) && Extends(rs[i], rs[j])
    decreases j
  {
    if j > 0 {
      HistoryIndexed(rs, if i < j then i else j - 1, j - 1);
      RegistersKeeps(rs[j - 1], rs[j]);
    }
  }

  /** A lookup whose first usable MAC is indexed returns the same node for ever. */
  lemma LookupStable(rs: seq<Registry>, i: nat, j: nat, macs: seq<string>)
    requires History(rs) && i <= j < |rs|
    requires Usable(macs) != [] && Usable(macs)[0] in rs[i].index
    ensures Found(rs[j].index, Usable(macs)) == Found(rs[i].index, Usable(macs)) == Some(rs[i].index[Usable(macs)[0]])
    ensures rs[i].index[Usable(macs)[0]] in rs[j].macs
  {
    HistoryIndexed(rs, i, j);
    HistoryIndexed(rs, i, i);
  }

  /**
   And only such a lookup: when an earlier usable MAC is not indexed yet, a later
   registration of that MAC alone changes the answer.
   */
  lemma LookupStableIff(r: Registry, canon: seq<string>)
    requires Indexed(r) && Found(r.index, canon).Some?
    requires forall m | m in canon :: m != "" && Canon(m) == m
    ensures (forall macs, uuid | uuid !in r.macs :: Found(Register(r, macs, uuid).index, canon) == Found(r.index, canon)) <==>
            canon[0] in r.index
  {
    if canon[0] in r.index {
      forall macs, uuid | uuid !in r.macs
        ensures Found(Register(r, macs, uuid).index, canon) == Found(r.index, canon)
      {
        RegisterKeeps(r, macs, uuid);
      }
    } else {
      var n := LongerThanAll(r.macs.Keys);
      var uuid := seq(n, _ => 'f');
      assert |uuid| == n;
      FoundFacts(r.index, canon);
      assert Found(r.index, canon).value in r.macs;
      var first := canon[0];
      assert first in canon;
      RegisterOne(r, first, uuid);
      assert Found(Register(r, [first], uuid).index, canon) == Some(uuid);
    }
  }

  lemma RegisterOne(r: Registry, m: string, uuid: string)
    requires m != "" && Canon(m) == m && m !in r.index
    ensures Register(r, [m], uuid).index == r.index[m := uuid]
  {
    assert [m][..0] == [];
    assert Usable([m]) == [m];
    FoundFacts(r.index, [m]);
    assert [m][|[m]| - 1] == m;
    assert IndexAll(r.index, [m], uuid) == r.index[m := uuid];
  }

  /** What `hostnameForMACs` finds: the name of the first listed MAC that has one. */
  function HostnameFor(macs: seq<string>, hostnames: map<string, string>): string {
    if macs == [] then ""
    else if macs[0] in hostnames then hostnames[macs[0]]
    else HostnameFor(macs[1..], hostnames)
  }

  /** The hostname of the first MAC that has one; the empty text exactly without such a MAC. */
  ghost predicate NamedByFirst(macs: seq<string>, hostnames: map<string, string>, h: string) {
    && (forall i | 0 <= i < |macs| && macs[i] in hostnames && (forall j | 0 <= j < i :: macs[j] !in hostnames) ::
         h == hostnames[macs[i]])
    && ((forall i | 0 <= i < |macs| :: macs[i] !in hostnames) ==> h == "")
  }

  class Store {
    var nodes: map<string, Node>
    var macIndex: map<string, string>

    ghost function Value(): Registry
      reads this
    {
      var all := nodes;
      Registry(Tabulate(all.Keys, u requires u in all => all[u].macs), macIndex)
    }

    ghost predicate Valid()
      reads this
    {
      Indexed(Value()) && forall u | u in nodes :: nodes[u].uuid == u
    }

    constructor ()
      ensures Valid() && Value() == Registry(map[], map[])
    {
      nodes, macIndex := map[], map[];
    }

    method GetByUUID(uuid: string) returns (n: Node?)
      ensures n == if uuid in nodes then nodes[uuid] else null
    {
      if uuid in nodes {
        return nodes[uuid];
      }
      return null;
    }

    method FindByMACs(macs: seq<string>) returns (n: Node?)
      requires Valid()
      ensures n == null <==> forall i | 0 <= i < |macs| :: Canon(macs[i]) !in macIndex
      ensures n != null ==> exists i :: 0 <= i < |macs| && Canon(macs[i]) in macIndex && n == nodes[macIndex[Canon(macs[i])]]
                                        && forall j | 0 <= j < i :: Canon(macs[j]) !in macIndex
    {
      for i := 0 to |macs|
        invariant forall j | 0 <= j < i :: Canon(macs[j]) !in macIndex
      {
        var c := Canon(macs[i]);
        if c in macIndex {
          assert Value().index[c] in Value().macs;
          return nodes[macIndex[c]];
        }
      }
      return null;
    }

    method HostnameForMACs(macs: seq<string>, hostnames: map<string, string>) returns (h: string)
      ensures h == HostnameFor(macs, hostnames)
      ensures NamedByFirst(macs, hostnames, h)
    {
      for i := 0 to |macs|
        invariant forall j | 0 <= j < i :: macs[j] !in hostnames
        invariant HostnameFor(macs, hostnames) == HostnameFor(macs[i..], hostnames)
      {
        if macs[i] in hostnames {
          return hostnames[macs[i]];
        }
        assert macs[i..][1..] == macs[i + 1..];
      }
      return "";
    }

    /** `GetOrCreate`; the random identifier and token are parameters, and identifiers do not repeat. */
    method GetOrCreate(macs: seq<string>, hostnames: map<string, string>, uuid: string, agentToken: string)
      returns (n: Node?, created: bool)
      requires Valid() && uuid !in nodes
      modifies this
      ensures Valid() && Value() == Register(old(Value()), macs, uuid)
      ensures n == null <==> Usable(macs) == []
      ensures created <==> Usable(macs) != [] && Found(old(macIndex), Usable(macs)).None?
      ensures n != null && !created ==> Found(old(macIndex), Usable(macs)) == Some(n.uuid)
      ensures n != null ==> n.uuid in nodes && nodes[n.uuid] == n
      ensures created ==> fresh(n) && n.uuid == uuid && n.macs == Usable(macs) && n.Value() == FRESH
      ensures created ==> n.agentToken == agentToken && NamedByFirst(n.macs, hostnames, n.hostname)
      ensures forall i | LeadsFirst(old(macIndex), macs, i) :: n != null && !created && n.uuid == old(macIndex)[Canon(macs[i])]
      ensures nodes == if created then old(nodes)[uuid := n] else old(nodes)
    {
      FoundLeads(macIndex, macs);
      var canon := Canonical(macs);
      if |canon| == 0 {
        return null, false;
      }
      var known := FirstIndexed(canon);
      if known.Some? {
        IndexedNode(known.value, canon);
        return nodes[known.value], false;
      }
      var hostname := HostnameForMACs(canon, hostnames);
      RegisterKeeps(Value(), macs, uuid);
      var newNode := new Node(uuid, canon, agentToken, hostname);
      Insert(newNode);
      return newNode, true;
    }

    /** The insertion at the end of `GetOrCreate`: the node, then its index entries. */
    method Insert(newNode: Node)
      requires newNode.uuid !in nodes
      modifies this
      ensures nodes == old(nodes)[newNode.uuid := newNode]
      ensures Value() == Registry(old(Value()).macs[newNode.uuid := newNode.macs],
                                  IndexAll(old(macIndex), newNode.macs, newNode.uuid))
    {
      ghost var before := Value().macs;
      nodes := nodes[newNode.uuid := newNode];
      IndexUnder(newNode.macs, newNode.uuid);
      SameMap(Value().macs, before[newNode.uuid := newNode.macs]);
    }

    lemma IndexedNode(uuid: string, canon: seq<string>)
      requires Valid() && Found(macIndex, canon) == Some(uuid)
      ensures uuid in nodes && nodes[uuid].uuid == uuid
    {
      FoundFacts(macIndex, canon);
      var m :| m in canon && m in macIndex && macIndex[m] == uuid;
      assert Value().index[m] in Value().macs;
    }

    /** The lookup loop of `GetOrCreate`. */
    method FirstIndexed(canon: seq<string>) returns (uuid: Option<string>)
      ensures uuid == Found(macIndex, canon)
    {
      for i := 0 to |canon|
        invariant Found(macIndex, canon) == Found(macIndex, canon[i..])
      {
        if canon[i] in macIndex {
          return Some(macIndex[canon[i]]);
        }
        assert canon[i..][1..] == canon[i + 1..];
      }
      return None;
    }

    /** The indexing loop of `GetOrCreate`. */
    method IndexUnder(canon: seq<string>, uuid: string)
      modifies this`macIndex
      ensures macIndex == IndexAll(old(macIndex), canon, uuid)
    {
      for i := 0 to |canon|
        invariant macIndex == IndexAll(old(macIndex), canon[..i], uuid)
      {
        assert canon[..i + 1][..i] == canon[..i];
        macIndex := macIndex[canon[i] := uuid];
      }
      assert canon[..|canon|] == canon;
    }

    /** The first loop of `GetOrCreate`. */
    static method Canonical(macs: seq<string>) returns (canon: seq<string>)
      ensures canon == Usable(macs)
    {
      canon := [];
      for i := 0 to |macs|
        invariant canon == Usable(macs[..i])
      {
        assert macs[..i + 1][..i] == macs[..i];
        var c := Canon(macs[i]);
        if c != "" {
          canon := canon + [c];
        }
      }
      assert macs[..|macs|] == macs;
    }
  }
}
