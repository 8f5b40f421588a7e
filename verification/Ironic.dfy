/** The lookup endpoint: from the address list an agent reports to the MACs of its node. */
module Ironic {
  import opened MacText
  import opened Store

  /** `strings.Split(s, ",")`. */
  function Split(s: string): (parts: seq<string>)
    ensures parts != []
  {
    if s == "" then [""]
    else if s[0] == ',' then [""] + Split(s[1..])
    else var rest := Split(s[1..]); [[s[0]] + rest[0]] + rest[1..]
  }

  function Join(parts: seq<string>): string
    requires parts != []
  {
    if |parts| == 1 then parts[0] else parts[0] + "," + Join(parts[1..])
  }

  /** Parts trimmed, empty ones dropped. */
  function Trimmed(parts: seq<string>): seq<string> {
    if parts == [] then []
    else
      var before, p := Trimmed(parts[..|parts| - 1]), TrimSpace(parts[|parts| - 1]);
      if p == "" then before else before + [p]
  }

  lemma TrimmedOne(p: string)
    ensures Trimmed([p]) == if TrimSpace(p) == "" then [] else [TrimSpace(p)]
  {
    assert [p][..0] == [] && Trimmed([p][..0]) == [];
  }

  /** Trimming keeps the order of the parts and their number, empty ones apart. */
  lemma {:induction false} TrimmedJoins(a: seq<string>, b: seq<string>)
    ensures Trimmed(a + b) == Trimmed(a) + Trimmed(b)
  {
    if b == [] {
      assert a + b == a;
    } else {
      var n := |b| - 1;
      TrimmedJoins(a, b[..n]);
      assert (a + b)[..|a + b| - 1] == a + b[..n] && (a + b)[|a + b| - 1] == b[n];
    }
  }

  /** Parts as an agent lists them: not empty, without padding and without commas. */
  ghost predicate Clean(parts: seq<string>) {
    parts != [] && forall i | 0 <= i < |parts| :: parts[i] != "" && Unpadded(parts[i]) && ',' !in parts[i]
  }

  lemma {:induction false} TrimmedKeeps(parts: seq<string>)
    requires forall i | 0 <= i < |parts| :: parts[i] != "" && Unpadded(parts[i])
    ensures Trimmed(parts) == parts
  {
    if parts != [] {
      var n := |parts| - 1;
      TrimmedKeeps(parts[..n]);
      TrimSpaceUnpadded(parts[n]);
      assert parts == parts[..n] + [parts[n]];
    }
  }

  lemma ListReadBack(parts: seq<string>)
    requires Clean(parts)
    ensures Trimmed(Split(Join(parts))) == parts
  {
    SplitJoin(parts);
    TrimmedKeeps(parts);
  }

  /** A clean list is read back as it was joined, in its order. */
  method SplitMACs(s: string) returns (out: seq<string>)
    ensures out == Trimmed(Split(s))
    ensures forall parts | Clean(parts) && s == Join(parts) :: out == parts
  {
    forall parts | Clean(parts) && s == Join(parts) ensures Trimmed(Split(s)) == parts {
      ListReadBack(parts);
    }
    var parts := Split(s);
    out := [];
    for i := 0 to |parts|
      invariant out == Trimmed(parts[..i])
    {
      assert parts[..i + 1][..i] == parts[..i];
      var p := TrimSpace(parts[i]);
      if p == "" {
        continue;
      }
      out := out + [p];
    }
    assert parts[..|parts|] == parts;
  }

  lemma {:induction false} SplitFront(p: string, s: string)
    requires ',' !in p
    ensures Split(p + "," + s) == [p] + Split(s)
    ensures Split(p) == [p]
  {
    if p == "" {
      assert p + "," + s == "," + s;
      assert ("," + s)[1..] == s;
    } else {
      SplitFront(p[1..], s);
      assert (p + "," + s)[1..] == p[1..] + "," + s;
      assert [p[0]] + p[1..] == p;
    }
  }

  /** Splitting undoes joining when no part holds a comma. */
  lemma {:induction false} SplitJoin(parts: seq<string>)
    requires parts != [] && forall i | 0 <= i < |parts| :: ',' !in parts[i]
    ensures Split(Join(parts)) == parts
  {
    if |parts| == 1 {
      SplitFront(parts[0], "");
    } else {
      SplitJoin(parts[1..]);
      SplitFront(parts[0], Join(parts[1..]));
    }
  }

  lemma {:induction false} TrimmedHas(parts: seq<string>, p: string)
    requires p in parts && TrimSpace(p) != ""
    ensures TrimSpace(p) in Trimmed(parts)
  {
    var n := |parts| - 1;
    if p != parts[n] {
      assert parts == parts[..n] + [parts[n]];
      TrimmedHas(parts[..n], p);
    }
  }

  lemma {:induction false} UsableHas(macs: seq<string>, m: string)
    requires m in macs && Canon(m) != ""
    ensures Canon(m) in Usable(macs)
  {
    var n := |macs| - 1;
    if m != macs[n] {
      assert macs == macs[..n] + [macs[n]];
      UsableHas(macs[..n], m);
    }
  }

  /**
   Every hardware address in the reported list, spelled with colons, hyphens or dots in any
   letter case and padded or not, is among the node's MACs in its printed form.
   */
  lemma ListedHardware(parts: seq<string>, part: string, hw: seq<byte>)
    requires parts != [] && forall i | 0 <= i < |parts| :: ',' !in parts[i]
    requires part in parts && SpellingOf(TrimSpace(part), hw)
    ensures HwString(hw) in Usable(Trimmed(Split(Join(parts))))
  {
    SplitJoin(parts);
    SpellShape(hw, TrimSpace(part));
    TrimmedHas(parts, part);
    CanonOfSpelling(TrimSpace(part), hw);
    SpellLength(hw, ':');
    UsableHas(Trimmed(parts), TrimSpace(part));
  }
}
