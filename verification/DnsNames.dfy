/** Names and suffixes of the DNS server. */
module DnsNames {
  import opened MacText

  predicate HasSuffix(s: string, suffix: string) {
    |suffix| <= |s| && s[|s| - |suffix|..] == suffix
  }

  /** `strings.TrimSuffix(s, ".")`. */
  function TrimFinalDot(s: string): string {
    if s != "" && s[|s| - 1] == '.' then s[..|s| - 1] else s
  }

  function TrimDotsLeft(s: string): string {
    if s != "" && s[0] == '.' then TrimDotsLeft(s[1..]) else s
  }

  function TrimDotsRight(s: string): string {
    if s != "" && s[|s| - 1] == '.' then TrimDotsRight(s[..|s| - 1]) else s
  }

  /** `strings.Trim(s, ".")`. */
  function TrimDots(s: string): string {
    TrimDotsRight(TrimDotsLeft(s))
  }

  /** `fqdn`: lower case, the domain appended to a name without dots, one final dot. */
  function Fqdn(domain: string, name: string): string {
    var n := Lower(TrimFinalDot(name));
    (if domain != "" && '.' !in n then n + "." + Lower(TrimDots(domain)) else n) + "."
  }

  /** Letter case makes no difference, nor do a final dot of the name and dots around the domain. */
  lemma FqdnIgnores(domain: string, name: string)
    ensures Fqdn(domain, Lower(name)) == Fqdn(domain, name) == Fqdn(Lower(domain), name)
    ensures TrimDots(domain) != "" ==> Fqdn(TrimDots(domain), name) == Fqdn(domain, name)
    ensures name == "" || name[|name| - 1] != '.' ==> Fqdn(domain, name + ".") == Fqdn(domain, name)
  {
    LowerKeepsDots(name);
    var t := TrimFinalDot(name);
    assert TrimFinalDot(Lower(name)) == Lower(t);
    LowerTwice(t);
    assert (name + ".")[..|name|] == name;
    TrimDotsLower(domain);
    LowerTwice(TrimDots(domain));
    TrimDotsBare(domain);
    TrimDotsBare(TrimDots(domain));
  }

  lemma {:induction false} TrimDotsLeftLower(s: string)
    ensures TrimDotsLeft(Lower(s)) == Lower(TrimDotsLeft(s))
  {
    if s != "" && s[0] == '.' {
      assert Lower(s)[1..] == Lower(s[1..]);
      TrimDotsLeftLower(s[1..]);
    } else if s != "" {
      assert Lower(s)[0] == LowerChar(s[0]);
    }
  }

  lemma {:induction false} TrimDotsRightLower(s: string)
    ensures TrimDotsRight(Lower(s)) == Lower(TrimDotsRight(s))
  {
    if s != "" && s[|s| - 1] == '.' {
      assert Lower(s)[..|s| - 1] == Lower(s[..|s| - 1]);
      TrimDotsRightLower(s[..|s| - 1]);
    } else if s != "" {
      assert Lower(s)[|s| - 1] == LowerChar(s[|s| - 1]);
    }
  }

  lemma TrimDotsLower(s: string)
    ensures TrimDots(Lower(s)) == Lower(TrimDots(s))
  {
    TrimDotsLeftLower(s);
    TrimDotsRightLower(TrimDotsLeft(s));
  }

  lemma LowerTwice(s: string)
    ensures Lower(Lower(s)) == Lower(s)
  {
  }

  /** A plain lower-case name gets the domain, a dotted one does not, and each ends in one dot more. */
  lemma FqdnExact(domain: string, name: string)
    requires Lower(name) == name && (name == "" || name[|name| - 1] != '.')
    ensures '.' in name || domain == "" ==> Fqdn(domain, name) == name + "."
    ensures '.' !in name && Bare(domain) && Lower(domain) == domain ==> Fqdn(domain, name) == name + "." + domain + "."
  {
    if domain != "" { TrimDotsBare(domain); }
  }

  predicate Bare(s: string) {
    s != "" && s[0] != '.' && s[|s| - 1] != '.'
  }

  lemma {:induction false} TrimDotsLeftHead(s: string)
    ensures TrimDotsLeft(s) == "" || TrimDotsLeft(s)[0] != '.'
  {
    if s != "" && s[0] == '.' { TrimDotsLeftHead(s[1..]); }
  }

  lemma {:induction false} TrimDotsRightEnds(s: string)
    ensures TrimDotsRight(s) == "" || TrimDotsRight(s)[|TrimDotsRight(s)| - 1] != '.'
    ensures TrimDotsRight(s) <= s
  {
    if s != "" && s[|s| - 1] == '.' { TrimDotsRightEnds(s[..|s| - 1]); }
  }

  lemma TrimDotsBare(s: string)
    ensures TrimDots(s) == "" || Bare(TrimDots(s))
    ensures Bare(s) ==> TrimDots(s) == s
  {
    TrimDotsLeftHead(s);
    TrimDotsRightEnds(TrimDotsLeft(s));
  }

  /** Nothing is left exactly of a text of dots. */
  lemma TrimDotsEmpty(s: string)
    ensures TrimDots(s) == "" <==> forall k | 0 <= k < |s| :: s[k] == '.'
  {
    var i, j := TrimDotsCuts(s);
    if TrimDots(s) != "" {
      TrimDotsBare(s);
      assert s[i] == TrimDots(s)[0];
    }
  }

  lemma {:induction false} TrimDotsLeftCuts(s: string) returns (i: nat)
    ensures i <= |s| && TrimDotsLeft(s) == s[i..] && forall k | 0 <= k < i :: s[k] == '.'
  {
    i := 0;
    if s != "" && s[0] == '.' {
      var j := TrimDotsLeftCuts(s[1..]);
      i := j + 1;
      assert s[1..][j..] == s[i..];
      assert forall k | 0 < k < i :: s[k] == s[1..][k - 1];
    }
  }

  lemma {:induction false} TrimDotsRightCuts(s: string) returns (j: nat)
    ensures j <= |s| && TrimDotsRight(s) == s[..j] && forall k | j <= k < |s| :: s[k] == '.'
  {
    j := |s|;
    if s != "" && s[|s| - 1] == '.' {
      j := TrimDotsRightCuts(s[..|s| - 1]);
      assert s[..|s| - 1][..j] == s[..j];
    }
  }

  /** Only dots are cut off, at both ends, and all of them. */
  lemma TrimDotsCuts(s: string) returns (i: nat, j: nat)
    ensures i <= j <= |s| && TrimDots(s) == s[i..j] && (s[i..j] == "" || Bare(s[i..j]))
    ensures forall k | 0 <= k < i || j <= k < |s| :: s[k] == '.'
  {
    TrimDotsBare(s);
    i := TrimDotsLeftCuts(s);
    var n := TrimDotsRightCuts(s[i..]);
    j := i + n;
    assert s[i..][..n] == s[i..j];
    assert forall k | j <= k < |s| :: s[k] == s[i..][k - i];
  }

  lemma LowerKeepsDots(s: string)
    ensures |Lower(s)| == |s| && forall i | 0 <= i < |s| :: Lower(s)[i] == '.' <==> s[i] == '.'
  {
  }

  /** The dots around a bare suffix come off again. */
  lemma TrimDotted(suf: string)
    requires Bare(suf)
    ensures TrimDots("." + suf + ".") == suf
  {
    var s := "." + suf + ".";
    assert s[1..] == suf + ".";
    assert TrimDotsLeft(s) == suf + ".";
    assert (suf + ".")[..|suf|] == suf;
    assert TrimDotsRight(suf + ".") == TrimDotsRight(suf) == suf;
  }
}
