/**
 The library routine `net.ParseIP` followed by `To4`, written out: dotted text, and IPv6
 text that holds an IPv4-mapped address.
 */
module Ip6Text {
  import opened Wrappers
  import opened MacText
  import opened IpText

  /** The leading hexadecimal digits. */
  function HexRun(s: string): (n: nat)
    ensures n <= |s| && forall i | 0 <= i < n :: IsHex(s[i])
  {
    if s == "" || !IsHex(s[0]) then 0 else 1 + HexRun(s[1..])
  }

  function HexNumber(s: string): nat
    requires forall i | 0 <= i < |s| :: IsHex(s[i])
  {
    if s == "" then 0 else 16 * HexNumber(s[..|s| - 1]) + HexValue(s[|s| - 1])
  }

  /** The two octets of a group, as the parser truncates them. */
  function Group(acc: nat): seq<byte> {
    [(acc / 256 % 256) as byte, (acc % 256) as byte]
  }

  function Zeros(n: nat): seq<byte> {
    seq(n, _ => 0)
  }

  /** The octets read, with zeros put in for `::`, which must stand for at least one group. */
  function Expand(ip: seq<byte>, ellipsis: Option<nat>): Option<seq<byte>> {
    match ellipsis
    case None => if |ip| == 16 then Some(ip) else None
    case Some(e) => if |ip| < 16 && e <= |ip| then Some(ip[..e] + Zeros(16 - |ip|) + ip[e..]) else None
  }

  /** The group loop: the rest of the text, the octets so far, where `::` stood. */
  function ParseGroups(s: string, ip: seq<byte>, ellipsis: Option<nat>): Option<seq<byte>>
    decreases |s|
  {
    var off := HexRun(s);
    if off == 0 || off > 4 then None
    else if off < |s| && s[off] == '.' then
      if (ellipsis.None? && |ip| != 12) || |ip| + 4 > 16 then None
      else
        match ScanFields(s, 0, 0, 0, [])
        case None => None
        case Some(four) => Expand(ip + four, ellipsis)
    else
      var longer, rest := ip + Group(HexNumber(s[..off])), s[off..];
      if rest == "" then Expand(longer, ellipsis)
      else if rest[0] != ':' || |rest| == 1 then None
      else if rest[1] != ':' then
        if |longer| < 16 then ParseGroups(rest[1..], longer, ellipsis) else None
      else if ellipsis.Some? then None
      else if |rest| == 2 then Expand(longer, Some(|longer|))
      else if |longer| < 16 then ParseGroups(rest[2..], longer, Some(|longer|))
      else None
  }

  /** IPv6 text without a zone, which `net.ParseIP` refuses. */
  function ParseIp6(s: string): Option<seq<byte>> {
    if '%' in s then None
    else if |s| < 2 || s[0] != ':' || s[1] != ':' then ParseGroups(s, [], None)
    else if |s| == 2 then Some(Zeros(16))
    else ParseGroups(s[2..], [], Some(0))
  }

  /** `To4` of sixteen octets. */
  function Mapped(ip: seq<byte>): Option<seq<byte>> {
    if |ip| == 16 && ip[..12] == Zeros(10) + [255, 255] then Some(ip[12..]) else None
  }

  /** The character that decides which parser reads the text. */
  function FirstMark(s: string): Option<char> {
    if s == "" then None
    else if s[0] == '.' || s[0] == ':' || s[0] == '%' then Some(s[0])
    else FirstMark(s[1..])
  }

  /** `net.ParseIP(s).To4()`, as a number. */
  function ParseIp4(s: string): Option<U32> {
    if FirstMark(s) == Some('.') then ParseDotted(s)
    else if FirstMark(s) == Some(':') && ParseIp6(s).Some? && Mapped(ParseIp6(s).value).Some? then
      Some(IpToU32(Mapped(ParseIp6(s).value).value))
    else None
  }

  // ---------- dotted text ----------

  lemma {:induction false} FirstMarkOccurs(s: string)
    ensures FirstMark(s).Some? ==> FirstMark(s).value in s
  {
    if s != "" && FirstMark(s).Some? && FirstMark(s) != Some(s[0]) {
      FirstMarkOccurs(s[1..]);
    }
  }

  /** A dotted print starts with one to three digits and a dot. */
  lemma PrintedHead(v: U32) returns (n: nat)
    ensures 1 <= n <= 3 && n < |IpString(v)| && IpString(v)[n] == '.' && forall i | 0 <= i < n :: IsDigit(IpString(v)[i])
  {
    var ip := U32ToIp(v);
    n := |Decimal(ip[0])|;
    assert IpString(v) == Decimal(ip[0]) + "." + DottedFrom(ip, 1);
  }

  lemma {:induction false} MarkAfterDigits(s: string, n: nat)
    requires n < |s| && s[n] == '.' && forall i | 0 <= i < n :: IsDigit(s[i])
    ensures FirstMark(s) == Some('.') && HexRun(s) == n
  {
    if n > 0 {
      assert IsDigit(s[0]);
      MarkAfterDigits(s[1..], n - 1);
    }
  }

  /** A printed address parses to itself. */
  lemma PrintedParses(v: U32)
    ensures ParseIp4(IpString(v)) == Some(v)
  {
    var n := PrintedHead(v);
    MarkAfterDigits(IpString(v), n);
    IpTextExact(IpString(v), v);
  }

  /** Of the texts without colon exactly the printed ones parse. */
  lemma DottedTextExact(s: string, v: U32)
    requires ':' !in s
    ensures ParseIp4(s) == Some(v) <==> s == IpString(v)
  {
    FirstMarkOccurs(s);
    PrintedParses(v);
    IpTextExact(s, v);
  }

  // ---------- IPv4-mapped text ----------

  lemma {:induction false} DottedChars(ip: seq<byte>, k: nat)
    requires k < |ip|
    ensures forall c | c in DottedFrom(ip, k) :: IsDigit(c) || c == '.'
    decreases |ip| - k
  {
    if k < |ip| - 1 { DottedChars(ip, k + 1); }
  }

  /** An address has a second text: after `::ffff:` its dotted print parses to it as well. */
  lemma MappedParses(v: U32)
    ensures ParseIp4("::ffff:" + IpString(v)) == Some(v)
  {
    var d := IpString(v);
    var s := "::ffff:" + d;
    var n := PrintedHead(v);
    MarkAfterDigits(d, n);
    DottedChars(U32ToIp(v), 0);
    assert '%' !in s;
    assert s[2..] == "ffff:" + d;
    U32OfIp(v);
    ScanComplete(U32ToIp(v));
    GroupThenDotted(d, n);
    MappedSixteen(U32ToIp(v));
  }

  lemma GroupThenDotted(d: string, n: nat)
    requires d != "" && HexRun(d) == n && 1 <= n <= 4 && n < |d| && d[n] == '.' && d[0] != ':'
    requires ScanFields(d, 0, 0, 0, []).Some?
    ensures ParseGroups("ffff:" + d, [], Some(0)) == Expand([255, 255] + ScanFields(d, 0, 0, 0, []).value, Some(0))
  {
    FullGroup(d);
    DottedGroup(d, n, [255, 255]);
    var s := "ffff:" + d;
    assert s[..4] == "ffff" && s[4..] == ":" + d && s[4..][1..] == d;
    assert [] + [255, 255] == [255 as byte, 255];
  }

  lemma DottedGroup(d: string, n: nat, ip: seq<byte>)
    requires HexRun(d) == n && 1 <= n <= 4 && n < |d| && d[n] == '.' && |ip| == 2
    requires ScanFields(d, 0, 0, 0, []).Some?
    ensures ParseGroups(d, ip, Some(0)) == Expand(ip + ScanFields(d, 0, 0, 0, []).value, Some(0))
  {
  }

  lemma FullGroup(d: string)
    ensures HexRun("ffff:" + d) == 4 && Group(HexNumber("ffff")) == [255, 255]
  {
    var s := "ffff:" + d;
    assert s[1..] == "fff:" + d && s[1..][1..] == "ff:" + d && s[1..][1..][1..] == "f:" + d && s[1..][1..][1..][1..] == ":" + d;
    assert HexRun(":" + d) == 0 && HexRun("f:" + d) == 1 && HexRun("ff:" + d) == 2 && HexRun("fff:" + d) == 3 && HexRun(s) == 4;
    assert "ffff"[..3] == "fff" && "fff"[..2] == "ff" && "ff"[..1] == "f" && "f"[..0] == "";
    assert HexNumber("f") == 15 && HexNumber("ff") == 255 && HexNumber("fff") == 4095;
  }

  lemma MappedSixteen(four: seq<byte>)
    requires |four| == 4
    ensures var all := Expand([255, 255] + four, Some(0)); all.Some? && Mapped(all.value) == Some(four)
  {
    var ip := Zeros(10) + [255, 255] + four;
    assert Expand([255, 255] + four, Some(0)).value == ip;
    assert ip[..12] == Zeros(10) + [255, 255] && ip[12..] == four;
  }
}
