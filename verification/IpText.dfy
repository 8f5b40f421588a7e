/**
 IPv4 addresses as 32-bit numbers, as four octets and as text.  The parser is the
 dotted-decimal branch of `net.ParseIP` followed by `To4`, written out.
 */
module IpText {
  import opened Wrappers
  import opened MacText

  type U32 = x: int | 0 <= x < 0x1_0000_0000

  // ---------- ipToU32 and u32ToIP ----------

  /** `ipToU32`: the shifts move whole octets, so the bitwise-or is a sum. */
  function IpToU32(ip: seq<byte>): U32
    requires |ip| == 4
  {
    ip[0] as int * 0x100_0000 + ip[1] as int * 0x1_0000 + ip[2] as int * 0x100 + ip[3] as int
  }

  /** `u32ToIP`: each conversion to `byte` keeps the low eight bits. */
  function U32ToIp(v: U32): seq<byte> {
    [(v / 0x100_0000 % 256) as byte, (v / 0x1_0000 % 256) as byte, (v / 0x100 % 256) as byte, (v % 256) as byte]
  }

  /** Every address is the number of its octets. */
  lemma U32OfIp(v: U32)
    ensures IpToU32(U32ToIp(v)) == v
  {
    var x, y, z := v / 0x100, v / 0x1_0000, v / 0x100_0000;
    assert y == x / 0x100 && z == y / 0x100;
    assert v == x * 256 + v % 256 && x == y * 256 + x % 256 && y == z * 256 + y % 256;
  }

  /** Every quadruple of octets is read back from its number. */
  lemma IpOfU32(ip: seq<byte>)
    requires |ip| == 4
    ensures U32ToIp(IpToU32(ip)) == ip
  {
    var a, b, c, d := ip[0] as int, ip[1] as int, ip[2] as int, ip[3] as int;
    var v := IpToU32(ip);
    var x, y := a * 0x1_0000 + b * 0x100 + c, a * 0x100 + b;
    assert v == x * 256 + d && x == y * 256 + c;
    assert v / 0x100 == x && v % 256 == d;
    assert v / 0x1_0000 == y && x % 256 == c;
    assert v / 0x100_0000 == a && y % 256 == b;
    assert U32ToIp(v) == [ip[0], ip[1], ip[2], ip[3]];
  }

  /** The octets, the highest first. */
  lemma OctetsExact(v: U32)
    ensures var ip := U32ToIp(v);
      |ip| == 4 && v == 16777216 * ip[0] as int + 65536 * ip[1] as int + 256 * ip[2] as int + ip[3] as int
  {
    U32OfIp(v);
  }

  // ---------- dotted decimal ----------

  function Digit(n: int): char
    requires 0 <= n < 10
  {
    (n + '0' as int) as char
  }

  predicate IsDigit(c: char) {
    '0' <= c <= '9'
  }

  function DigitValue(c: char): (n: int)
    requires IsDigit(c)
    ensures 0 <= n < 10 && Digit(n) == c
  {
    c as int - '0' as int
  }

  function Decimal(b: byte): string {
    var n := b as int;
    if n < 10 then [Digit(n)]
    else if n < 100 then [Digit(n / 10), Digit(n % 10)]
    else [Digit(n / 100), Digit(n / 10 % 10), Digit(n % 10)]
  }

  /** One to three digits that denote the octet, without leading zeros. */
  lemma DecimalExact(b: byte)
    ensures var t, n := Decimal(b), b as int;
      && (n < 10 ==> t == ["0123456789"[n]])
      && (10 <= n < 100 ==> t == ["0123456789"[n / 10], "0123456789"[n % 10]])
      && (100 <= n ==> t == ["0123456789"[n / 100], "0123456789"[n / 10 % 10], "0123456789"[n % 10]])
  {
    forall d | 0 <= d < 10 ensures Digit(d) == "0123456789"[d] {
    }
  }

  /** Octets in decimal, each followed by a dot. */
  function DotAfterEach(fields: seq<byte>): string {
    if fields == [] then ""
    else DotAfterEach(fields[..|fields| - 1]) + Decimal(fields[|fields| - 1]) + "."
  }

  /** Octets from number `k` on, in decimal, with a dot between neighbours. */
  function DottedFrom(ip: seq<byte>, k: nat): string
    requires k < |ip|
    decreases |ip| - k
  {
    if k == |ip| - 1 then Decimal(ip[k]) else Decimal(ip[k]) + "." + DottedFrom(ip, k + 1)
  }

  /** `net.IP.String` of four octets. */
  function Dotted(ip: seq<byte>): string
    requires |ip| == 4
  {
    DottedFrom(ip, 0)
  }

  /** The field scanner of the address parser: value and digit count of the current octet, octets so far. */
  function ScanFields(s: string, i: nat, val: nat, digits: nat, fields: seq<byte>): Option<seq<byte>>
    requires i <= |s| && val <= 255
    decreases |s| - i
  {
    if i == |s| then
      if |fields| < 3 then None else Some(fields + [val as byte])
    else if IsDigit(s[i]) then
      if digits == 1 && val == 0 then None
      else if val * 10 + DigitValue(s[i]) > 255 then None
      else ScanFields(s, i + 1, val * 10 + DigitValue(s[i]), digits + 1, fields)
    else if s[i] == '.' then
      if i == 0 || i == |s| - 1 || s[i - 1] == '.' || |fields| == 3 then None
      else ScanFields(s, i + 1, 0, 0, fields + [val as byte])
    else None
  }

  /** The dotted text of an address, as a number. */
  function ParseDotted(s: string): Option<U32> {
    match ScanFields(s, 0, 0, 0, [])
    case None => None
    case Some(fields) => if |fields| == 4 then Some(IpToU32(fields)) else None
  }

  function IpString(v: U32): string {
    Dotted(U32ToIp(v))
  }

  /** What the scanner has read: whole octets with their dots, then the digits of the current one. */
  ghost predicate Scanned(s: string, i: nat, val: nat, digits: nat, fields: seq<byte>)
    requires i <= |s|
  {
    && val <= 255 && |fields| <= 3
    && s[..i] == DotAfterEach(fields) + (if digits == 0 then "" else Decimal(val as byte))
    && (digits == 0 ==> val == 0)
    && (digits > 0 ==> digits == |Decimal(val as byte)|)
  }

  lemma DecimalGrows(val: nat, d: nat)
    requires 1 <= val && val * 10 + d <= 255 && d < 10
    ensures Decimal((val * 10 + d) as byte) == Decimal(val as byte) + [Digit(d)]
  {
    var n := val * 10 + d;
    assert n / 10 == val && n % 10 == d;
    if n >= 100 { assert n / 100 == val / 10; }
  }

  lemma DotAfterEachSnoc(fields: seq<byte>, b: byte)
    ensures DotAfterEach(fields + [b]) == DotAfterEach(fields) + Decimal(b) + "."
  {
    assert (fields + [b])[..|fields|] == fields;
  }

  lemma DotAfterEachEnds(fields: seq<byte>)
    ensures var t := DotAfterEach(fields); (t == "" <==> fields == []) && (t != "" ==> t[|t| - 1] == '.')
  {
  }

  lemma {:induction false} DottedSplit(ip: seq<byte>, k: nat)
    requires k < |ip|
    ensures DotAfterEach(ip[..k]) + DottedFrom(ip, k) == DottedFrom(ip, 0)
  {
    if k > 0 {
      DottedSplit(ip, k - 1);
      assert ip[..k] == ip[..k - 1] + [ip[k - 1]];
      DotAfterEachSnoc(ip[..k - 1], ip[k - 1]);
    }
  }

  lemma ScannedDigit(s: string, i: nat, val: nat, digits: nat, fields: seq<byte>, d: nat)
    requires i < |s| && Scanned(s, i, val, digits, fields)
    requires d < 10 && s[i] == Digit(d) && !(digits == 1 && val == 0) && val * 10 + d <= 255
    ensures Scanned(s, i + 1, val * 10 + d, digits + 1, fields)
  {
    assert s[..i + 1] == s[..i] + [s[i]];
    if digits > 0 {
      assert val > 0;
      DecimalGrows(val, d);
    }
  }

  lemma ScannedDot(s: string, i: nat, val: nat, digits: nat, fields: seq<byte>)
    requires 0 < i < |s| && Scanned(s, i, val, digits, fields) && |fields| < 3
    requires s[i] == '.' && s[i - 1] != '.'
    ensures Scanned(s, i + 1, 0, 0, fields + [val as byte])
  {
    DotAfterEachEnds(fields);
    assert s[i - 1] == s[..i][i - 1];
    assert digits > 0;
    assert s[..i + 1] == s[..i] + ".";
    DotAfterEachSnoc(fields, val as byte);
  }

  /** What a complete reading of the text has seen. */
  ghost predicate ReadWhole(s: string, ip: seq<byte>) {
    |ip| == 4 && Scanned(s, |s|, ip[3] as nat, |Decimal(ip[3])|, ip[..3])
  }

  lemma ScannedEnd(s: string, val: nat, digits: nat, fields: seq<byte>)
    requires Scanned(s, |s|, val, digits, fields) && digits > 0 && |fields| == 3
    ensures ReadWhole(s, fields + [val as byte])
  {
    assert (fields + [val as byte])[..3] == fields;
  }

  lemma ReadWholeDotted(s: string, ip: seq<byte>)
    requires ReadWhole(s, ip)
    ensures s == Dotted(ip)
  {
    assert s[..|s|] == s;
    DottedSplit(ip, 3);
  }

  /** The three ways on which the scan succeeds. */
  lemma ScanWays(s: string, i: nat, val: nat, digits: nat, fields: seq<byte>)
    requires i <= |s| && val <= 255 && |fields| <= 3 && ScanFields(s, i, val, digits, fields).Some?
    ensures var r := ScanFields(s, i, val, digits, fields);
      if i == |s| then |fields| == 3 && r == Some(fields + [val as byte])
      else if IsDigit(s[i]) then
        var d := DigitValue(s[i]);
        !(digits == 1 && val == 0) && val * 10 + d <= 255 && r == ScanFields(s, i + 1, val * 10 + d, digits + 1, fields)
      else
        && s[i] == '.' && 0 < i < |s| - 1 && s[i - 1] != '.' && |fields| < 3
        && r == ScanFields(s, i + 1, 0, 0, fields + [val as byte])
  {
  }

  lemma {:induction false} ScanSound(s: string, i: nat, val: nat, digits: nat, fields: seq<byte>)
    requires i <= |s| && Scanned(s, i, val, digits, fields)
    requires digits == 0 ==> i == 0 || i < |s|
    ensures var r := ScanFields(s, i, val, digits, fields); r.Some? ==> ReadWhole(s, r.value)
    decreases |s| - i
  {
    if ScanFields(s, i, val, digits, fields).Some? {
      ScanWays(s, i, val, digits, fields);
      if i == |s| {
        DotAfterEachEnds(fields);
        ScannedEnd(s, val, digits, fields);
      } else if IsDigit(s[i]) {
        var d := DigitValue(s[i]);
        ScannedDigit(s, i, val, digits, fields, d);
        ScanSound(s, i + 1, val * 10 + d, digits + 1, fields);
      } else {
        ScannedDot(s, i, val, digits, fields);
        ScanSound(s, i + 1, 0, 0, fields + [val as byte]);
      }
    }
  }

  lemma ScanDigit(s: string, i: nat, val: nat, digits: nat, fields: seq<byte>, d: nat)
    requires i < |s| && d < 10 && s[i] == Digit(d)
    requires !(digits == 1 && val == 0) && val * 10 + d <= 255
    ensures ScanFields(s, i, val, digits, fields) == ScanFields(s, i + 1, val * 10 + d, digits + 1, fields)
  {
  }

  /** The text at position `i` starts with `part`. */
  predicate At(s: string, i: nat, part: string) {
    i + |part| <= |s| && s[i..i + |part|] == part
  }

  lemma Cut(s: string, i: nat, part: string, rest: string)
    requires At(s, i, part + rest)
    ensures At(s, i, part) && At(s, i + |part|, rest)
  {
    var whole := s[i..i + |part + rest|];
    assert s[i..i + |part|] == whole[..|part|];
    assert s[i + |part|..i + |part| + |rest|] == whole[|part|..];
  }

  /** Reading the decimal form of one octet. */
  lemma ScanOctet(s: string, i: nat, b: byte, fields: seq<byte>)
    requires At(s, i, Decimal(b))
    ensures ScanFields(s, i, 0, 0, fields) == ScanFields(s, i + |Decimal(b)|, b as nat, |Decimal(b)|, fields)
  {
    var n, t := b as int, s[i..i + |Decimal(b)|];
    assert t[0] == s[i];
    if n < 10 {
      ScanDigit(s, i, 0, 0, fields, n);
    } else if n < 100 {
      assert t[1] == s[i + 1];
      ScanDigit(s, i, 0, 0, fields, n / 10);
      ScanDigit(s, i + 1, n / 10, 1, fields, n % 10);
    } else {
      assert t[1] == s[i + 1] && t[2] == s[i + 2];
      assert n / 100 * 10 + n / 10 % 10 == n / 10;
      ScanDigit(s, i, 0, 0, fields, n / 100);
      ScanDigit(s, i + 1, n / 100, 1, fields, n / 10 % 10);
      ScanDigit(s, i + 2, n / 10, 2, fields, n % 10);
    }
  }

  /** Reading an octet and the dot that follows it. */
  lemma ScanOctetDot(s: string, i: nat, b: byte, fields: seq<byte>)
    requires |fields| < 3
    requires At(s, i, Decimal(b) + ".") && i + |Decimal(b)| + 1 < |s|
    ensures ScanFields(s, i, 0, 0, fields) == ScanFields(s, i + |Decimal(b)| + 1, 0, 0, fields + [b])
  {
    var k := |Decimal(b)|;
    var j := i + k;
    assert s[i..j] == s[i..j + 1][..k] == Decimal(b);
    assert s[j] == s[i..j + 1][k] == '.';
    ScanOctet(s, i, b, fields);
    assert s[j - 1] == s[i..j][k - 1];
  }

  /** Reading the octets from number `k` on, to the end of the text. */
  lemma {:induction false} ScanFrom(s: string, i: nat, ip: seq<byte>, k: nat)
    requires k < |ip| == 4
    requires At(s, i, DottedFrom(ip, k)) && i + |DottedFrom(ip, k)| == |s|
    ensures ScanFields(s, i, 0, 0, ip[..k]) == Some(ip)
    decreases |ip| - k
  {
    var d := |Decimal(ip[k])|;
    if k == 3 {
      ScanOctet(s, i, ip[k], ip[..k]);
      assert ip[..k] + [ip[k]] == ip;
    } else {
      Cut(s, i, Decimal(ip[k]) + ".", DottedFrom(ip, k + 1));
      ScanOctetDot(s, i, ip[k], ip[..k]);
      assert ip[..k] + [ip[k]] == ip[..k + 1];
      ScanFrom(s, i + d + 1, ip, k + 1);
    }
  }

  lemma ScanComplete(ip: seq<byte>)
    requires |ip| == 4
    ensures ScanFields(Dotted(ip), 0, 0, 0, []) == Some(ip)
  {
    ScanFrom(Dotted(ip), 0, ip, 0);
    assert ip[..0] == [];
  }

  /** Printing and parsing are inverse both ways: the accepted texts are exactly the printed ones. */
  lemma IpTextExact(s: string, v: U32)
    ensures ParseDotted(s) == Some(v) <==> s == IpString(v)
  {
    U32OfIp(v);
    ScanComplete(U32ToIp(v));
    if ParseDotted(s) == Some(v) {
      var fields := ScanFields(s, 0, 0, 0, []).value;
      ScanSound(s, 0, 0, 0, []);
      ReadWholeDotted(s, fields);
      IpOfU32(fields);
    }
  }

  lemma IpStringInjective(v: U32, w: U32)
    ensures IpString(v) == IpString(w) ==> v == w
  {
    IpTextExact(IpString(v), v);
    IpTextExact(IpString(v), w);
  }

  // ---------- reverse names ----------

  /** `dns.ReverseAddr` of an IPv4 address. */
  function ReverseAddr(v: U32): string {
    var ip := U32ToIp(v);
    Dotted([ip[3], ip[2], ip[1], ip[0]]) + ".in-addr.arpa."
  }

  /** The address is printed with the highest octet first, its reverse name with the lowest first (section 3.5 of RFC 1035). */
  lemma TextsExact(v: U32)
    ensures var ip := U32ToIp(v);
      && IpString(v) == Decimal(ip[0]) + "." + (Decimal(ip[1]) + "." + (Decimal(ip[2]) + "." + Decimal(ip[3])))
      && ReverseAddr(v) ==
         Decimal(ip[3]) + "." + (Decimal(ip[2]) + "." + (Decimal(ip[1]) + "." + Decimal(ip[0]))) + ".in-addr.arpa."
  {
    var ip := U32ToIp(v);
    DottedExact(ip);
    DottedExact([ip[3], ip[2], ip[1], ip[0]]);
  }

  lemma DottedExact(ip: seq<byte>)
    requires |ip| == 4
    ensures Dotted(ip) == Decimal(ip[0]) + "." + (Decimal(ip[1]) + "." + (Decimal(ip[2]) + "." + Decimal(ip[3])))
  {
    assert DottedFrom(ip, 3) == Decimal(ip[3]);
    assert DottedFrom(ip, 2) == Decimal(ip[2]) + "." + DottedFrom(ip, 3);
    assert DottedFrom(ip, 1) == Decimal(ip[1]) + "." + DottedFrom(ip, 2);
  }

  /** Different addresses have different reverse names (section 3.5 of RFC 1035). */
  lemma ReverseAddrInjective(v: U32, w: U32)
    ensures ReverseAddr(v) == ReverseAddr(w) ==> v == w
  {
    if ReverseAddr(v) == ReverseAddr(w) {
      var a, b, t := U32ToIp(v), U32ToIp(w), ".in-addr.arpa.";
      var p, q := Dotted([a[3], a[2], a[1], a[0]]), Dotted([b[3], b[2], b[1], b[0]]);
      assert |p + t| == |q + t|;
      assert p == (p + t)[..|p|] && q == (q + t)[..|q|];
      ScanComplete([a[3], a[2], a[1], a[0]]);
      ScanComplete([b[3], b[2], b[1], b[0]]);
      assert [a[3], a[2], a[1], a[0]] == [b[3], b[2], b[1], b[0]];
      U32OfIp(v);
      U32OfIp(w);
      assert [a[3], a[2], a[1], a[0]][3] == [b[3], b[2], b[1], b[0]][3];
      assert [a[3], a[2], a[1], a[0]][2] == [b[3], b[2], b[1], b[0]][2];
      assert a == b;
    }
  }
}
