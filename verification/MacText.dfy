/**
 Text of hardware addresses: the library routines `net.ParseMAC` and
 `HardwareAddr.String`, written out, and the canonical form that the lease,
 state and node packages all compute.  Letters are ASCII.
 */
module MacText {
  import opened Wrappers

  newtype byte = x: int | 0 <= x < 256

  // ---------- strings.ToLower and strings.TrimSpace ----------

  function LowerChar(c: char): char {
    if 'A' <= c <= 'Z' then (c as int + 32) as char else c
  }

  function Lower(s: string): string {
    seq(|s|, i requires 0 <= i < |s| => LowerChar(s[i]))
  }

  /** The characters of the Unicode White_Space property. */
  predicate IsSpace(c: char) {
    || '\U{9}' <= c <= '\U{D}' || c == ' ' || c == '\U{85}' || c == '\U{A0}' || c == '\U{1680}'
    || '\U{2000}' <= c <= '\U{200A}' || c == '\U{2028}' || c == '\U{2029}' || c == '\U{202F}'
    || c == '\U{205F}' || c == '\U{3000}'
  }

  /** The padding in ASCII text: tab, line feed, vertical tab, form feed, carriage return and space. */
  lemma AsciiSpaces(c: char)
    requires c as int < 128
    ensures IsSpace(c) <==> c as int in {9, 10, 11, 12, 13, 32}
  {
  }

  function TrimLeft(s: string): string {
    if s != [] && IsSpace(s[0]) then TrimLeft(s[1..]) else s
  }

  function TrimRight(s: string): string {
    if s != [] && IsSpace(s[|s| - 1]) then TrimRight(s[..|s| - 1]) else s
  }

  function TrimSpace(s: string): string {
    TrimRight(TrimLeft(s))
  }

  predicate Unpadded(s: string) {
    s == [] || (!IsSpace(s[0]) && !IsSpace(s[|s| - 1]))
  }

  lemma {:induction false} TrimLeftHead(s: string)
    ensures TrimLeft(s) == [] || !IsSpace(TrimLeft(s)[0])
  {
    if s != [] && IsSpace(s[0]) {
      TrimLeftHead(s[1..]);
    }
  }

  lemma {:induction false} TrimRightEnds(s: string)
    ensures TrimRight(s) == [] || !IsSpace(TrimRight(s)[|TrimRight(s)| - 1])
    ensures TrimRight(s) <= s
  {
    if s != [] && IsSpace(s[|s| - 1]) {
      TrimRightEnds(s[..|s| - 1]);
    }
  }

  /** Trimming leaves no padding, and changes a string exactly when there is some. */
  lemma TrimSpaceUnpadded(s: string)
    ensures Unpadded(TrimSpace(s))
    ensures TrimSpace(s) == s <==> Unpadded(s)
  {
    TrimLeftHead(s);
    TrimRightEnds(TrimLeft(s));
  }

  lemma {:induction false} TrimLeftCuts(s: string) returns (i: nat)
    ensures i <= |s| && TrimLeft(s) == s[i..] && forall k | 0 <= k < i :: IsSpace(s[k])
  {
    i := 0;
    if s != [] && IsSpace(s[0]) {
      var j := TrimLeftCuts(s[1..]);
      i := j + 1;
      assert s[1..][j..] == s[i..];
      assert forall k | 0 < k < i :: s[k] == s[1..][k - 1];
    }
  }

  lemma {:induction false} TrimRightCuts(s: string) returns (j: nat)
    ensures j <= |s| && TrimRight(s) == s[..j] && forall k | j <= k < |s| :: IsSpace(s[k])
  {
    j := |s|;
    if s != [] && IsSpace(s[|s| - 1]) {
      j := TrimRightCuts(s[..|s| - 1]);
      assert s[..|s| - 1][..j] == s[..j];
    }
  }

  /** Only padding is cut off, at both ends, and all of it. */
  lemma TrimSpaceCuts(s: string) returns (i: nat, j: nat)
    ensures i <= j <= |s| && TrimSpace(s) == s[i..j] && Unpadded(s[i..j])
    ensures forall k | 0 <= k < i || j <= k < |s| :: IsSpace(s[k])
  {
    TrimSpaceUnpadded(s);
    i := TrimLeftCuts(s);
    var n := TrimRightCuts(s[i..]);
    j := i + n;
    assert s[i..][..n] == s[i..j];
    assert forall k | j <= k < |s| :: s[k] == s[i..][k - i];
  }

  /** An upper-case letter becomes the lower-case letter at its place in the alphabet; nothing else changes. */
  lemma LowerExact(s: string, i: nat)
    requires i < |s|
    ensures |Lower(s)| == |s|
    ensures if 'A' <= s[i] <= 'Z' then 'a' <= Lower(s)[i] <= 'z' && Lower(s)[i] as int - 'a' as int == s[i] as int - 'A' as int
            else Lower(s)[i] == s[i]
  {
  }

  lemma LowerKeepsPadding(s: string)
    ensures Unpadded(Lower(s)) <==> Unpadded(s)
    ensures Lower(Lower(s)) == Lower(s)
  {
    if s != [] {
      assert Lower(s)[0] == LowerChar(s[0]);
      assert Lower(s)[|s| - 1] == LowerChar(s[|s| - 1]);
    }
    forall j | 0 <= j < |s|
      ensures Lower(Lower(s))[j] == Lower(s)[j]
    {
    }
  }

  // ---------- net.ParseMAC and HardwareAddr.String ----------

  predicate IsHex(c: char) {
    '0' <= c <= '9' || 'a' <= c <= 'f' || 'A' <= c <= 'F'
  }

  function HexValue(c: char): (n: int)
    requires IsHex(c)
    ensures 0 <= n < 16
  {
    if '0' <= c <= '9' then c as int - '0' as int
    else if 'a' <= c <= 'f' then c as int - 'a' as int + 10
    else c as int - 'A' as int + 10
  }

  function HexDigit(n: int): char
    requires 0 <= n < 16
  {
    if n < 10 then (n + '0' as int) as char else (n - 10 + 'a' as int) as char
  }

  function PairValue(c: char, d: char): byte
    requires IsHex(c) && IsHex(d)
  {
    (16 * HexValue(c) + HexValue(d)) as byte
  }

  /** The lengths the parser accepts: EUI-48, EUI-64 and 20-octet IP over InfiniBand. */
  predicate MacLength(n: int) {
    n == 6 || n == 8 || n == 20
  }

  /** `n` octets with `sep` between neighbours. */
  function ParsePairs(s: string, n: int, sep: char): Option<seq<byte>>
    requires n >= 1 && |s| == 3 * n - 1
  {
    if !(IsHex(s[0]) && IsHex(s[1])) then None
    else if n == 1 then Some([PairValue(s[0], s[1])])
    else if s[2] != sep then None
    else
      match ParsePairs(s[3..], n - 1, sep)
      case None => None
      case Some(rest) => Some([PairValue(s[0], s[1])] + rest)
  }

  /** `n` groups of two octets with a dot between neighbours. */
  function ParseQuads(s: string, n: int): Option<seq<byte>>
    requires n >= 1 && |s| == 5 * n - 1
  {
    if !(IsHex(s[0]) && IsHex(s[1]) && IsHex(s[2]) && IsHex(s[3])) then None
    else
      var here := [PairValue(s[0], s[1]), PairValue(s[2], s[3])];
      if n == 1 then Some(here)
      else if s[4] != '.' then None
      else
        match ParseQuads(s[5..], n - 1)
        case None => None
        case Some(rest) => Some(here + rest)
  }

  function ParseMac(s: string): Option<seq<byte>> {
    if |s| < 14 then None
    else if s[2] == ':' || s[2] == '-' then
      if (|s| + 1) % 3 == 0 && MacLength((|s| + 1) / 3) then ParsePairs(s, (|s| + 1) / 3, s[2]) else None
    else if s[4] == '.' then
      if (|s| + 1) % 5 == 0 && MacLength(2 * (|s| + 1) / 5) then ParseQuads(s, (|s| + 1) / 5) else None
    else None
  }

  function HexPair(b: byte): string {
    [HexDigit(b as int / 16), HexDigit(b as int % 16)]
  }

  /** Lower-case text of an address with one separator between octets. */
  function Spell(hw: seq<byte>, sep: char): string {
    if hw == [] then ""
    else if |hw| == 1 then HexPair(hw[0])
    else HexPair(hw[0]) + [sep] + Spell(hw[1..], sep)
  }

  /** Lower-case text with a dot between groups of two octets. */
  function SpellDotted(hw: seq<byte>): string {
    if |hw| < 2 then ""
    else if |hw| == 2 then HexPair(hw[0]) + HexPair(hw[1])
    else HexPair(hw[0]) + HexPair(hw[1]) + "." + SpellDotted(hw[2..])
  }

  /** `HardwareAddr.String`. */
  function HwString(hw: seq<byte>): string {
    Spell(hw, ':')
  }

  /** Octet `i` is printed as its two digits, the higher one first, with a colon before the next octet. */
  lemma {:induction false} HwStringExact(hw: seq<byte>, i: nat)
    requires i < |hw|
    ensures |HwString(hw)| == 3 * |hw| - 1
    ensures HwString(hw)[3 * i] == "0123456789abcdef"[hw[i] as int / 16]
    ensures HwString(hw)[3 * i + 1] == "0123456789abcdef"[hw[i] as int % 16]
    ensures i < |hw| - 1 ==> HwString(hw)[3 * i + 2] == ':'
  {
    SpellLength(hw, ':');
    HexDigitExact(hw[i] as int / 16);
    HexDigitExact(hw[i] as int % 16);
    if i > 0 {
      HwStringExact(hw[1..], i - 1);
      SpellLength(hw[1..], ':');
    }
  }

  lemma HexDigitExact(n: int)
    requires 0 <= n < 16
    ensures HexDigit(n) == "0123456789abcdef"[n]
  {
  }

  predicate SpellingOf(s: string, hw: seq<byte>) {
    |hw| in {6, 8, 20} && Lower(s) in {Spell(hw, ':'), Spell(hw, '-'), SpellDotted(hw)}
  }

  lemma HexDigitOf(c: char, n: int)
    requires 0 <= n < 16
    ensures LowerChar(c) == HexDigit(n) <==> IsHex(c) && HexValue(c) == n
  {
  }

  /** A pair of characters denotes an octet exactly when it is that octet's two digits in some case. */
  lemma PairOf(c: char, d: char, b: byte)
    ensures IsHex(c) && IsHex(d) && PairValue(c, d) == b <==> [LowerChar(c), LowerChar(d)] == HexPair(b)
  {
    HexDigitOf(c, b as int / 16);
    HexDigitOf(d, b as int % 16);
  }

  lemma LowerSplit(s: string, k: nat)
    requires k <= |s|
    ensures Lower(s) == Lower(s[..k]) + Lower(s[k..])
  {
  }

  lemma {:induction false} SpellLength(hw: seq<byte>, sep: char)
    ensures hw != [] ==> |Spell(hw, sep)| == 3 * |hw| - 1
  {
    if |hw| > 1 { SpellLength(hw[1..], sep); }
  }

  lemma {:induction false} SpellDottedLength(hw: seq<byte>)
    requires |hw| % 2 == 0
    ensures hw != [] ==> |SpellDotted(hw)| == 5 * (|hw| / 2) - 1
  {
    if |hw| > 2 { SpellDottedLength(hw[2..]); }
  }

  lemma SpellHead(s: string, hw: seq<byte>, sep: char)
    requires sep in ":-" && |s| >= 3 && |hw| > 1
    ensures Lower(s) == Spell(hw, sep) <==>
            && [LowerChar(s[0]), LowerChar(s[1])] == HexPair(hw[0]) && s[2] == sep
            && Lower(s[3..]) == Spell(hw[1..], sep)
  {
    var head, tail := HexPair(hw[0]) + [sep], Spell(hw[1..], sep);
    LowerSplit(s, 3);
    assert Lower(s[..3]) == [LowerChar(s[0]), LowerChar(s[1])] + [LowerChar(s[2])];
    assert |head| == 3 && Spell(hw, sep) == head + tail;
    assert (head + tail)[..3] == head && (head + tail)[3..] == tail;
    assert Lower(s)[..3] == Lower(s[..3]) && Lower(s)[3..] == Lower(s[3..]);
    assert head[..2] == HexPair(hw[0]) && head[2] == sep;
  }

  /** The separated layout: parsing reads back exactly the octets that were spelled. */
  lemma {:induction false} PairsSpell(s: string, n: int, hw: seq<byte>, sep: char)
    requires sep in ":-" && n >= 1 && |s| == 3 * n - 1
    ensures ParsePairs(s, n, sep) == Some(hw) <==> hw != [] && Lower(s) == Spell(hw, sep)
    decreases n
  {
    SpellLength(hw, sep);
    PairsLength(s, n, sep);
    if hw != [] && |hw| == n {
      PairOf(s[0], s[1], hw[0]);
      if n == 1 {
        assert hw == [hw[0]] && Lower(s) == [LowerChar(s[0]), LowerChar(s[1])];
      } else {
        PairsSpell(s[3..], n - 1, hw[1..], sep);
        SpellHead(s, hw, sep);
        PairsHead(s, n, hw, sep);
      }
    }
  }

  lemma {:induction false} PairsLength(s: string, n: int, sep: char)
    requires n >= 1 && |s| == 3 * n - 1
    ensures ParsePairs(s, n, sep).Some? ==> |ParsePairs(s, n, sep).value| == n
  {
    if n > 1 { PairsLength(s[3..], n - 1, sep); }
  }

  lemma PairsHead(s: string, n: int, hw: seq<byte>, sep: char)
    requires n > 1 && |s| == 3 * n - 1 && hw != []
    ensures ParsePairs(s, n, sep) == Some(hw) <==>
            && IsHex(s[0]) && IsHex(s[1]) && PairValue(s[0], s[1]) == hw[0] && s[2] == sep
            && ParsePairs(s[3..], n - 1, sep) == Some(hw[1..])
  {
    var rest := ParsePairs(s[3..], n - 1, sep);
    if rest.Some? && IsHex(s[0]) && IsHex(s[1]) {
      assert ([PairValue(s[0], s[1])] + rest.value)[1..] == rest.value;
      assert [hw[0]] + hw[1..] == hw;
    }
  }

  lemma {:induction false} QuadsLength(s: string, n: int)
    requires n >= 1 && |s| == 5 * n - 1
    ensures ParseQuads(s, n).Some? ==> |ParseQuads(s, n).value| == 2 * n
  {
    if n > 1 { QuadsLength(s[5..], n - 1); }
  }

  lemma QuadsHead(s: string, n: int, hw: seq<byte>)
    requires n > 1 && |s| == 5 * n - 1 && |hw| >= 2
    ensures ParseQuads(s, n) == Some(hw) <==>
            && IsHex(s[0]) && IsHex(s[1]) && PairValue(s[0], s[1]) == hw[0]
            && IsHex(s[2]) && IsHex(s[3]) && PairValue(s[2], s[3]) == hw[1]
            && s[4] == '.' && ParseQuads(s[5..], n - 1) == Some(hw[2..])
  {
    var rest := ParseQuads(s[5..], n - 1);
    if rest.Some? && IsHex(s[0]) && IsHex(s[1]) && IsHex(s[2]) && IsHex(s[3]) {
      assert ([PairValue(s[0], s[1]), PairValue(s[2], s[3])] + rest.value)[2..] == rest.value;
      assert [hw[0], hw[1]] + hw[2..] == hw;
    }
  }

  /** Four characters are the digits of two octets exactly when each half is. */
  lemma GroupOf(s: string, a: byte, b: byte)
    requires |s| >= 4
    ensures Lower(s[..4]) == HexPair(a) + HexPair(b) <==>
            [LowerChar(s[0]), LowerChar(s[1])] == HexPair(a) && [LowerChar(s[2]), LowerChar(s[3])] == HexPair(b)
  {
    var four, digits := Lower(s[..4]), HexPair(a) + HexPair(b);
    assert four == [LowerChar(s[0]), LowerChar(s[1])] + [LowerChar(s[2]), LowerChar(s[3])];
    assert four[..2] == [LowerChar(s[0]), LowerChar(s[1])] && four[2..] == [LowerChar(s[2]), LowerChar(s[3])];
    assert digits[..2] == HexPair(a) && digits[2..] == HexPair(b);
  }

  lemma SpellDottedSplit(s: string, hw: seq<byte>)
    requires |s| >= 4 && |hw| >= 2
    ensures Lower(s) == SpellDotted(hw) <==>
            && Lower(s[..4]) == HexPair(hw[0]) + HexPair(hw[1])
            && Lower(s[4..]) == if |hw| == 2 then "" else "." + SpellDotted(hw[2..])
  {
    var tail := if |hw| == 2 then "" else "." + SpellDotted(hw[2..]);
    var digits := HexPair(hw[0]) + HexPair(hw[1]);
    LowerSplit(s, 4);
    assert SpellDotted(hw) == digits + tail;
    assert (digits + tail)[..4] == digits && (digits + tail)[4..] == tail;
    assert Lower(s)[..4] == Lower(s[..4]) && Lower(s)[4..] == Lower(s[4..]);
  }

  lemma SpellDottedHead(s: string, hw: seq<byte>)
    requires |s| >= 4 && |hw| >= 2
    ensures Lower(s) == SpellDotted(hw) <==>
            && [LowerChar(s[0]), LowerChar(s[1])] == HexPair(hw[0])
            && [LowerChar(s[2]), LowerChar(s[3])] == HexPair(hw[1])
            && if |hw| == 2 then |s| == 4 else |s| > 4 && s[4] == '.' && Lower(s[5..]) == SpellDotted(hw[2..])
  {
    GroupOf(s, hw[0], hw[1]);
    SpellDottedSplit(s, hw);
    if |hw| > 2 && |s| > 4 {
      var tail := "." + SpellDotted(hw[2..]);
      LowerSplit(s[4..], 1);
      assert s[4..][1..] == s[5..];
      assert Lower(s[4..]) == [LowerChar(s[4])] + Lower(s[5..]);
      assert Lower(s[4..])[1..] == Lower(s[5..]);
      assert tail[0] == '.' && tail[1..] == SpellDotted(hw[2..]);
    }
  }

  /** The dotted layout. */
  lemma {:induction false} QuadsSpell(s: string, n: int, hw: seq<byte>)
    requires n >= 1 && |s| == 5 * n - 1 && |hw| % 2 == 0
    ensures ParseQuads(s, n) == Some(hw) <==> hw != [] && Lower(s) == SpellDotted(hw)
    decreases n
  {
    SpellDottedLength(hw);
    QuadsLength(s, n);
    if |hw| == 2 * n {
      if n == 1 {
        LastQuadSpells(s, hw);
      } else {
        QuadsSpell(s[5..], n - 1, hw[2..]);
        FirstQuadSpells(s, n, hw);
      }
    }
  }

  lemma LastQuadSpells(s: string, hw: seq<byte>)
    requires |s| == 4 && |hw| == 2
    ensures ParseQuads(s, 1) == Some(hw) <==> Lower(s) == SpellDotted(hw)
  {
    PairOf(s[0], s[1], hw[0]);
    PairOf(s[2], s[3], hw[1]);
    SpellDottedHead(s, hw);
    assert hw == [hw[0], hw[1]];
  }

  lemma FirstQuadSpells(s: string, n: int, hw: seq<byte>)
    requires n > 1 && |s| == 5 * n - 1 && |hw| == 2 * n
    requires ParseQuads(s[5..], n - 1) == Some(hw[2..]) <==> Lower(s[5..]) == SpellDotted(hw[2..])
    ensures ParseQuads(s, n) == Some(hw) <==> Lower(s) == SpellDotted(hw)
  {
    PairOf(s[0], s[1], hw[0]);
    PairOf(s[2], s[3], hw[1]);
    SpellDottedHead(s, hw);
    QuadsHead(s, n, hw);
  }

  lemma SpellShape(hw: seq<byte>, s: string)
    requires SpellingOf(s, hw)
    ensures |s| >= 14
    ensures Lower(s) == Spell(hw, ':') ==> s[2] == ':' && |s| == 3 * |hw| - 1
    ensures Lower(s) == Spell(hw, '-') ==> s[2] == '-' && |s| == 3 * |hw| - 1
    ensures Lower(s) == SpellDotted(hw) ==> s[4] == '.' && IsHex(s[2]) && |s| == 5 * (|hw| / 2) - 1
  {
    assert |Lower(s)| == |s|;
    if Lower(s) == SpellDotted(hw) {
      SpellDottedLength(hw);
      SpellDottedHead(s, hw);
      PairOf(s[2], s[3], hw[1]);
    }
    if Lower(s) == Spell(hw, ':') {
      SpellLength(hw, ':');
      SpellHead(s, hw, ':');
    }
    if Lower(s) == Spell(hw, '-') {
      SpellLength(hw, '-');
      SpellHead(s, hw, '-');
    }
  }

  /**
   The parser accepts exactly the colon, hyphen and dot spellings of an address of
   6, 8 or 20 octets, in any letter case, and returns the address they spell.
   */
  lemma ParseMacExact(s: string, hw: seq<byte>)
    ensures ParseMac(s) == Some(hw) <==> SpellingOf(s, hw)
  {
    if SpellingOf(s, hw) {
      SpellShape(hw, s);
      if Lower(s) == SpellDotted(hw) {
        QuadsSpell(s, (|s| + 1) / 5, hw);
      } else {
        PairsSpell(s, (|s| + 1) / 3, hw, s[2]);
      }
    } else if ParseMac(s) == Some(hw) {
      if s[2] == ':' || s[2] == '-' {
        PairsLength(s, (|s| + 1) / 3, s[2]);
        PairsSpell(s, (|s| + 1) / 3, hw, s[2]);
      } else {
        QuadsLength(s, (|s| + 1) / 5);
        QuadsSpell(s, (|s| + 1) / 5, hw);
      }
    }
  }

  // ---------- the canonical form ----------

  /** `canon` of the lease and state packages and `canonMAC` of the node package. */
  function Canon(mac: string): string {
    match ParseMac(mac)
    case Some(hw) => Lower(HwString(hw))
    case None => Lower(TrimSpace(mac))
  }

  lemma {:induction false} HwStringLower(hw: seq<byte>)
    ensures Lower(HwString(hw)) == HwString(hw)
    ensures Unpadded(HwString(hw))
  {
    SpellLength(hw, ':');
    if |hw| > 1 {
      HwStringLower(hw[1..]);
      SpellLength(hw[1..], ':');
      LowerSplit(HwString(hw), 3);
      assert HwString(hw)[..3] == HexPair(hw[0]) + ":";
      assert HwString(hw)[3..] == HwString(hw[1..]);
    }
  }

  /** Every spelling of an address has one canonical form: its lower-case colon form. */
  lemma CanonOfSpelling(s: string, hw: seq<byte>)
    requires SpellingOf(s, hw)
    ensures Canon(s) == HwString(hw)
  {
    ParseMacExact(s, hw);
    HwStringLower(hw);
  }

  /** The printed form of any hardware address, whatever its length, is its own canonical form. */
  lemma CanonOfHwString(hw: seq<byte>)
    ensures Canon(HwString(hw)) == HwString(hw)
  {
    HwStringLower(hw);
    TrimSpaceUnpadded(HwString(hw));
    match ParseMac(HwString(hw))
    case None =>
    case Some(other) =>
      ParseMacExact(HwString(hw), other);
      SpellShape(other, HwString(hw));
  }

  lemma ParseIgnoresCase(s: string)
    ensures ParseMac(Lower(s)) == ParseMac(s)
  {
    LowerKeepsPadding(s);
    match ParseMac(s) {
      case Some(hw) =>
        ParseMacExact(s, hw);
        ParseMacExact(Lower(s), hw);
      case None =>
        if ParseMac(Lower(s)).Some? {
          var hw := ParseMac(Lower(s)).value;
          ParseMacExact(Lower(s), hw);
          ParseMacExact(s, hw);
        }
    }
  }

  lemma {:induction false} PairsEnds(s: string, n: int, sep: char)
    requires n >= 1 && |s| == 3 * n - 1
    ensures ParsePairs(s, n, sep).Some? ==> IsHex(s[0]) && IsHex(s[|s| - 1])
  {
    if n > 1 { PairsEnds(s[3..], n - 1, sep); }
  }

  lemma {:induction false} QuadsEnds(s: string, n: int)
    requires n >= 1 && |s| == 5 * n - 1
    ensures ParseQuads(s, n).Some? ==> IsHex(s[0]) && IsHex(s[|s| - 1])
  {
    if n > 1 { QuadsEnds(s[5..], n - 1); }
  }

  /** Only unpadded text parses. */
  lemma ParsesUnpadded(s: string)
    ensures ParseMac(s).Some? ==> Unpadded(s)
  {
    if ParseMac(s).Some? {
      if s[2] == ':' || s[2] == '-' {
        PairsEnds(s, (|s| + 1) / 3, s[2]);
      } else {
        QuadsEnds(s, (|s| + 1) / 5);
      }
    }
  }

  /** Padding around a hyphen or dot spelling: the one family on which a second pass changes the result. */
  predicate PaddedForeignSpelling(s: string) {
    !Unpadded(s) && ParseMac(TrimSpace(s)).Some? && TrimSpace(s)[2] != ':'
  }

  /** `canon` is idempotent exactly outside that family. */
  lemma CanonIdempotentIff(s: string)
    ensures Canon(Canon(s)) == Canon(s) <==> !PaddedForeignSpelling(s)
  {
    TrimSpaceUnpadded(s);
    match ParseMac(s) {
      case Some(hw) =>
        ParsesUnpadded(s);
        HwStringLower(hw);
        CanonOfHwString(hw);
      case None =>
        var t := TrimSpace(s);
        LowerKeepsPadding(t);
        ParseIgnoresCase(t);
        TrimSpaceUnpadded(Lower(t));
        if ParseMac(t).Some? {
          var hw := ParseMac(t).value;
          ParseMacExact(t, hw);
          SpellShape(hw, t);
          HwStringLower(hw);
          assert Lower(t)[2] == LowerChar(t[2]);
          assert HwString(hw)[2] == ':';
        }
    }
  }

  /** A second pass always settles: canonical forms of canonical forms are fixed points. */
  lemma CanonSettles(s: string)
    ensures Canon(Canon(Canon(s))) == Canon(Canon(s))
  {
    TrimSpaceUnpadded(s);
    LowerKeepsPadding(TrimSpace(s));
    match ParseMac(s)
    case Some(hw) =>
      HwStringLower(hw);
      CanonOfHwString(hw);
    case None =>
      CanonIdempotentIff(Canon(s));
  }

  /** The second form of a padded spelling is the printed address. */
  lemma PaddedSecondForm(s: string)
    requires PaddedForeignSpelling(s)
    ensures Canon(Canon(s)) == HwString(ParseMac(TrimSpace(s)).value) != ""
  {
    TrimSpaceUnpadded(s);
    ParsesUnpadded(s);
    ParseIgnoresCase(TrimSpace(s));
    var hw := ParseMac(TrimSpace(s)).value;
    ParseMacExact(TrimSpace(s), hw);
    HwStringLower(hw);
    SpellLength(hw, ':');
    SpellShape(hw, TrimSpace(s));
  }

  /** The family is not empty: every hyphen or dot spelling with a space before it belongs to it. */
  lemma PaddedSpellings(text: string, hw: seq<byte>)
    requires SpellingOf(text, hw) && Lower(text) != Spell(hw, ':')
    ensures PaddedForeignSpelling(" " + text)
  {
    var s := " " + text;
    ParseMacExact(text, hw);
    ParsesUnpadded(text);
    TrimSpaceUnpadded(text);
    assert s[1..] == text;
    assert TrimLeft(s) == TrimLeft(text);
    SpellShape(hw, text);
  }

  /** Padding a spelling of an address changes nothing once it is trimmed, as `splitMACs` does. */
  lemma CanonOfTrimmedSpelling(s: string, hw: seq<byte>)
    requires SpellingOf(TrimSpace(s), hw)
    ensures Canon(TrimSpace(s)) == HwString(hw) == Canon(Canon(TrimSpace(s)))
  {
    CanonOfSpelling(TrimSpace(s), hw);
    CanonOfHwString(hw);
  }
}
