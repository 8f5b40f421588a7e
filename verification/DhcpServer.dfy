/** The DHCP handler: message dispatch, allocation, the already-deployed gate and the boot fields. */
module DhcpServer {
  import opened Wrappers
  import opened MacText
  import opened IpText
  import LeaseModel
  import opened LeaseAllocator
  import opened LeaseRuns
  import opened LeaseProcess
  import Tracker

  datatype MessageType = Discover | Request | Release | Decline | Inform | OtherType

  datatype Arch = ArchUnknown | BiosX86 | UefiX64 | UefiArm64

  /** A request: hardware address, client address field, requested-address option, what the client announced. */
  datatype Packet = Packet(kind: MessageType, hw: seq<byte>, ciaddr: Option<U32>, requested: Option<U32>,
                           arch: Arch, isIPXE: bool)

  datatype Settings = Settings(serverIP: U32, netmask: U32, leaseTime: nat, httpPort: nat,
                               domainName: string, searchDomains: seq<string>)

  const NANOSECONDS := 1_000_000_000

  datatype ReplyType = Offer | Ack

  datatype Reply = Reply(kind: ReplyType, yourIP: U32, serverIP: U32, serverIdentifier: U32, serverHostName: string, netmask: U32,
                         leaseSeconds: U32, router: Option<U32>, dns: seq<U32>, hostname: Option<string>,
                         domainName: Option<string>, searchDomains: seq<string>,
                         classIdentifier: Option<string>, vendorSpecific: Option<seq<byte>>,
                         bootFileName: string, bootFileOption: Option<string>, tftpServerOption: Option<string>)

  /** `pxe.FirmwareBootfile`. */
  function FirmwareBootfile(a: Arch): Option<string> {
    match a
    case BiosX86 => Some("undionly.kpxe")
    case UefiX64 => Some("snponly.efi")
    case _ => None
  }

  function NatString(n: nat): string {
    if n < 10 then [Digit(n)] else NatString(n / 10) + [Digit(n % 10)]
  }

  function NatValue(s: string): nat
    requires forall k | 0 <= k < |s| :: IsDigit(s[k])
  {
    if s == "" then 0 else 10 * NatValue(s[..|s| - 1]) + DigitValue(s[|s| - 1])
  }

  /** Decimal text without leading zeros. */
  lemma {:induction false} NatStringExact(n: nat)
    ensures NatString(n) != "" && forall k | 0 <= k < |NatString(n)| :: IsDigit(NatString(n)[k])
    ensures NatValue(NatString(n)) == n
    ensures NatString(n)[0] == '0' ==> n == 0 && |NatString(n)| == 1
  {
    if n >= 10 {
      NatStringExact(n / 10);
      var s := NatString(n);
      assert s[..|s| - 1] == NatString(n / 10) && s[|s| - 1] == Digit(n % 10);
    } else {
      assert NatString(n)[..0] == "";
    }
  }

  /** `selectBoot`: the URL for iPXE, the file for firmware that has one. */
  function SelectBoot(c: Settings, arch: Arch, isIPXE: bool, mac: string): Option<string> {
    if isIPXE then
      Some("http://" + IpString(c.serverIP) + ":" + NatString(c.httpPort) + "/boot.ipxe?mac=" + mac)
    else FirmwareBootfile(arch)
  }

  /** `requestedOrClientIP`: the option wins over the header field, and 0.0.0.0 counts as absent. */
  function RequestedOrClientIP(p: Packet): Option<U32> {
    if p.requested.Some? && p.requested.value != 0 then p.requested
    else if p.ciaddr.Some? && p.ciaddr.value != 0 then p.ciaddr
    else None
  }

  /** The part of a reply that any DHCP client gets. */
  function PlainReply(c: Settings, p: Packet, l: LeaseModel.Lease): Reply {
    Reply(if p.kind == Request then Ack else Offer, l.ip, c.serverIP, c.serverIP, IpString(c.serverIP), c.netmask,
          c.leaseTime / NANOSECONDS % 0x1_0000_0000, l.gateway, l.dns,
          if l.hostname == "" then None else Some(l.hostname),
          if c.domainName == "" then None else Some(c.domainName), c.searchDomains,
          None, None, "", None, None)
  }

  predicate Boots(r: Reply) {
    r.bootFileName != "" || r.bootFileOption.Some? || r.tftpServerOption.Some?
  }

  predicate MarkedPXE(r: Reply) {
    r.classIdentifier.Some? || r.vendorSpecific.Some?
  }

  /** What a packet asks of the allocator. */
  function EventOf(p: Packet, diskOk: bool): Option<Event> {
    match p.kind
    case Discover => Some(AllocateFor(HwString(p.hw), diskOk))
    case Request => Some(AllocateFor(HwString(p.hw), diskOk))
    case Release => Some(ReleaseBy(HwString(p.hw), p.ciaddr, diskOk))
    case Decline =>
      if RequestedOrClientIP(p).None? then None else Some(DeclineBy(HwString(p.hw), RequestedOrClientIP(p), diskOk))
    case _ => None
  }

  // ---------- replies, field by field ----------

  /** What every client is told: the type of the reply, the server, and the terms of its lease. */
  ghost predicate TellsLease(c: Settings, p: Packet, l: LeaseModel.Lease, r: Reply) {
    && (p.kind == Discover ==> r.kind == Offer) && (p.kind == Request ==> r.kind == Ack)
    && r.yourIP == l.ip && r.netmask == c.netmask && r.leaseSeconds == c.leaseTime / 1_000_000_000 % 0x1_0000_0000
    && r.serverIP == c.serverIP && r.serverIdentifier == c.serverIP && r.serverHostName == IpString(c.serverIP)
    && r.router == l.gateway && r.dns == l.dns && r.searchDomains == c.searchDomains
    && (if l.hostname == "" then r.hostname == None else r.hostname == Some(l.hostname))
    && (if c.domainName == "" then r.domainName == None else r.domainName == Some(c.domainName))
  }

  /** A reply that gives a client nothing to boot. */
  predicate Plain(r: Reply) {
    r.classIdentifier == None && r.vendorSpecific == None && NoBootFile(r)
  }

  predicate NoBootFile(r: Reply) {
    r.bootFileName == "" && r.bootFileOption == None && r.tftpServerOption == None
  }

  predicate HasBootFile(c: Settings, r: Reply, file: string) {
    r.bootFileName == file && r.bootFileOption == Some(file) && r.tftpServerOption == Some(IpString(c.serverIP))
  }

  /** What a client that is not deployed is told: PXE options if it announced an architecture, and its boot file. */
  ghost predicate TellsBoot(c: Settings, p: Packet, r: Reply) {
    && (if p.arch == ArchUnknown then r.classIdentifier == None && r.vendorSpecific == None
        else r.classIdentifier == Some("PXEClient") && r.vendorSpecific == Some([0x06, 0x01, 0x08, 0xff]))
    && if p.isIPXE then
         HasBootFile(c, r, "http://" + IpString(c.serverIP) + ":" + NatString(c.httpPort) + "/boot.ipxe?mac=" + HwString(p.hw))
       else if p.arch == BiosX86 then HasBootFile(c, r, "undionly.kpxe")
       else if p.arch == UefiX64 then HasBootFile(c, r, "snponly.efi")
       else NoBootFile(r)
  }

  ghost predicate Tells(c: Settings, p: Packet, l: LeaseModel.Lease, deployed: bool, r: Reply) {
    TellsLease(c, p, l, r) && if deployed then Plain(r) else TellsBoot(c, p, r)
  }

  /** An address is named by an option or a header field that is not 0.0.0.0. */
  predicate NamedAddress(ip: Option<U32>) {
    ip.Some? && ip.value != 0
  }

  class Server {
    const settings: Settings
    const leaser: Allocator
    const tracker: Tracker.Tracker

    constructor (settings: Settings, leaser: Allocator, tracker: Tracker.Tracker)
      ensures this.settings == settings && this.leaser == leaser && this.tracker == tracker
    {
      this.settings, this.leaser, this.tracker := settings, leaser, tracker;
    }

    /**
     `handle`; the reply that is written to the socket, if any.  A handled packet is one step
     of the lease server, or none; a discover or request is answered exactly when its
     allocation succeeded and was saved, with a reply that passes the gate.
     */
    method Handle(p: Packet, now: int, diskOk: bool) returns (reply: Option<Reply>)
      requires leaser.Valid()
      modifies leaser, leaser.disk
      ensures leaser.Valid()
      ensures match EventOf(p, diskOk)
              case None => WorldOf(leaser, now) == old(WorldOf(leaser, now)) && leaser.staticLeases == old(leaser.staticLeases)
              case Some(e) => Step(leaser.site, old(WorldOf(leaser, now)), e, WorldOf(leaser, now))
      ensures reply.Some? <==>
              EventOf(p, diskOk).Some? && Acked(leaser.site, old(WorldOf(leaser, now)), EventOf(p, diskOk).value).Some?
      ensures reply.Some? ==>
        var a := LeaseModel.Allocate(leaser.site, old(leaser.Tables()), now, Canon(HwString(p.hw)));
        && p.kind in {Discover, Request} && a.lease.Success?
        && Gated(settings, p, a.lease.value, Canon(HwString(p.hw)) in tracker.deployed, reply.value)
        && Tells(settings, p, a.lease.value, Canon(HwString(p.hw)) in tracker.deployed, reply.value)
      ensures p.kind == Release ==>
        leaser.Tables() == LeaseModel.Release(old(leaser.Tables()), Canon(HwString(p.hw)), p.ciaddr)
      ensures p.kind == Decline && NamedAddress(p.requested) ==>
        DeclinedBy(leaser, old(leaser.Tables()), Canon(HwString(p.hw)), p.requested.value, now)
      ensures p.kind == Decline && !NamedAddress(p.requested) && NamedAddress(p.ciaddr) ==>
        DeclinedBy(leaser, old(leaser.Tables()), Canon(HwString(p.hw)), p.ciaddr.value, now)
      ensures p.kind in {Inform, OtherType} || (p.kind == Decline && !NamedAddress(p.requested) && !NamedAddress(p.ciaddr)) ==>
        leaser.Tables() == old(leaser.Tables()) && leaser.disk.content == old(leaser.disk.content)
    {
      var mac := Lower(HwString(p.hw));
      HwStringLower(p.hw);
      match p.kind {
        case Discover =>
        case Request =>
        case Release =>
          assert EventOf(p, diskOk) == Some(ReleaseBy(mac, p.ciaddr, diskOk));
          var err := leaser.Release(mac, p.ciaddr, diskOk);
          return None;
        case Decline =>
          HandleDecline(p, mac, now, diskOk);
          return None;
        case Inform => return None;
        case OtherType => return None;
      }
      assert EventOf(p, diskOk) == Some(AllocateFor(mac, diskOk));
      var lease, err := leaser.Allocate(mac, now, diskOk);
      if err.Some? {
        return None;
      }
      var r := Answer(p, mac, lease.value);
      return Some(r);
    }

    /** The decline branch of `handle`. */
    method HandleDecline(p: Packet, mac: string, now: int, diskOk: bool)
      requires leaser.Valid() && p.kind == Decline && mac == HwString(p.hw)
      modifies leaser, leaser.disk
      ensures leaser.Valid() && leaser.staticLeases == old(leaser.staticLeases)
      ensures match EventOf(p, diskOk)
              case None => WorldOf(leaser, now) == old(WorldOf(leaser, now))
              case Some(e) => Step(leaser.site, old(WorldOf(leaser, now)), e, WorldOf(leaser, now))
      ensures NamedAddress(p.requested) ==>
        DeclinedBy(leaser, old(leaser.Tables()), Canon(mac), p.requested.value, now)
      ensures !NamedAddress(p.requested) && NamedAddress(p.ciaddr) ==>
        DeclinedBy(leaser, old(leaser.Tables()), Canon(mac), p.ciaddr.value, now)
      ensures !NamedAddress(p.requested) && !NamedAddress(p.ciaddr) ==>
        leaser.Tables() == old(leaser.Tables()) && leaser.disk.content == old(leaser.disk.content)
    {
      var ip := RequestedOrClientIP(p);
      if ip.None? {
        return;
      }
      assert EventOf(p, diskOk) == Some(DeclineBy(mac, ip, diskOk));
      var err := leaser.Decline(mac, ip, now, diskOk);
    }

    /** The second half of `handle`: the gate and the boot fields. */
    method Answer(p: Packet, mac: string, l: LeaseModel.Lease) returns (r: Reply)
      requires mac == HwString(p.hw)
      ensures Gated(settings, p, l, Canon(mac) in tracker.deployed, r)
      ensures p.kind in {Discover, Request} ==> Tells(settings, p, l, Canon(mac) in tracker.deployed, r)
    {
      var deployed := tracker.IsDeployed(mac);
      r := PlainReply(settings, p, l);
      if p.arch != ArchUnknown && !deployed {
        r := r.(classIdentifier := Some("PXEClient"), vendorSpecific := Some([0x06, 0x01, 0x08, 0xff]));
      }
      var boot := SelectBoot(settings, p.arch, p.isIPXE, mac);
      if !deployed && boot.Some? {
        r := r.(bootFileName := boot.value, bootFileOption := boot,
                tftpServerOption := Some(IpString(settings.serverIP)));
      }
      SelectedIsNamed(settings, p.arch, p.isIPXE, mac);
    }
  }

  /** The address was declined: nobody has it, and a pool address that is not static is held back for a lease time. */
  ghost predicate DeclinedBy(a: Allocator, t: LeaseModel.Tables, m: string, v: U32, now: int)
    reads a
  {
    && a.Tables() == LeaseModel.Decline(a.site, t, now, m, v) && v !in a.byIP
    && (a.site.InPool(v) && v !in a.site.StaticIPs() ==>
         v in a.declined && a.declined[v] == LeaseModel.Quarantine(m, now + a.site.leaseTime))
  }

  lemma SelectedIsNamed(c: Settings, arch: Arch, isIPXE: bool, mac: string)
    ensures SelectBoot(c, arch, isIPXE, mac).Some? ==> SelectBoot(c, arch, isIPXE, mac).value != ""
  {
  }

  /**
   The gate: a reply carries the lease fields of the plain reply in every case; it carries
   PXE options exactly when the MAC is not deployed and announced an architecture, boot
   fields exactly when it is not deployed and a boot file is selected for it.
   */
  ghost predicate Gated(c: Settings, p: Packet, l: LeaseModel.Lease, deployed: bool, r: Reply) {
    var boot := SelectBoot(c, p.arch, p.isIPXE, HwString(p.hw));
    && r.(classIdentifier := None, vendorSpecific := None, bootFileName := "", bootFileOption := None,
          tftpServerOption := None) == PlainReply(c, p, l)
    && (MarkedPXE(r) <==> !deployed && p.arch != ArchUnknown)
    && (MarkedPXE(r) ==> r.classIdentifier == Some("PXEClient") && r.vendorSpecific == Some([0x06, 0x01, 0x08, 0xff]))
    && (Boots(r) <==> !deployed && boot.Some?)
    && (Boots(r) ==> r.bootFileName == boot.value && r.bootFileOption == boot
                     && r.tftpServerOption == Some(IpString(c.serverIP)))
  }

  /** For a deployed MAC the gate leaves exactly the plain reply. */
  lemma GatedDeployed(c: Settings, p: Packet, l: LeaseModel.Lease, r: Reply)
    requires Gated(c, p, l, true, r)
    ensures r == PlainReply(c, p, l)
  {
  }

  /** A printed hardware address is settled by `canon`, so the handler takes only proper steps. */
  lemma PacketsAreProper(p: Packet, diskOk: bool)
    requires EventOf(p, diskOk).Some?
    ensures Proper(EventOf(p, diskOk).value)
  {
    CanonOfHwString(p.hw);
    CanonIdempotentIff(HwString(p.hw));
  }

  /** In world `w` packet `p` makes step `e` and is answered with `r`. */
  ghost predicate Sent(s: LeaseModel.Site, w: World, e: Event, c: Settings, p: Packet, diskOk: bool, deployed: bool, r: Reply)
    requires s.Ok()
  {
    && Some(e) == EventOf(p, diskOk) && Acked(s, w, e).Some?
    && Gated(c, p, LeaseModel.Allocate(s, w.mem.value, w.clock, Canon(HwString(p.hw))).lease.value, deployed, r)
  }

  /**
   No two clients are told the same address: a reply sent while an earlier reply's lease
   runs, to another hardware address, carries another address, unless the lease was
   released, its address declined, leases cleared, or both clients have static bindings.
   */
  lemma RepliesExclusive(s: LeaseModel.Site, ws: seq<World>, es: seq<Event>, i: nat, j: nat, c: Settings,
                         p: Packet, q: Packet, pOk: bool, qOk: bool, pDeployed: bool, qDeployed: bool, r: Reply, t: Reply)
    requires s.Ok() && Run(s, ws, es) && i < j < |es| && Safe(s, ws[0]) && forall e | e in es :: Proper(e)
    requires Sent(s, ws[i], es[i], c, p, pOk, pDeployed, r) && Sent(s, ws[j], es[j], c, q, qOk, qDeployed, t)
    requires ws[j].clock < ws[i].clock + s.leaseTime
    requires forall k | i < k < j :: !Voids(es[k], Acked(s, ws[i], es[i]).value) && !Forgets(s, es[k])
    requires Canon(HwString(p.hw)) != Canon(HwString(q.hw))
    requires Canon(HwString(p.hw)) !in s.statics || Canon(HwString(q.hw)) !in s.statics
    ensures r.yourIP != t.yourIP
  {
    SentTerms(s, ws[i], es[i], c, p, pOk, pDeployed, r);
    SentTerms(s, ws[j], es[j], c, q, qOk, qDeployed, t);
    if r.yourIP == t.yourIP {
      Exclusivity(s, ws, es, i, j, Acked(s, ws[i], es[i]).value, Acked(s, ws[j], es[j]).value);
    }
  }

  /** What a reply says is what was acknowledged. */
  lemma SentTerms(s: LeaseModel.Site, w: World, e: Event, c: Settings, p: Packet, diskOk: bool, deployed: bool, r: Reply)
    requires s.Ok() && Sent(s, w, e, c, p, diskOk, deployed, r)
    ensures Acked(s, w, e) == Offered(s, w, e) == Some(Grant(Canon(HwString(p.hw)), r.yourIP, w.clock + s.leaseTime))
  {
    AckedTerms(s, w, e, HwString(p.hw));
    GatedAddress(c, p, LeaseModel.Allocate(s, w.mem.value, w.clock, Canon(HwString(p.hw))).lease.value, deployed, r);
  }

  lemma GatedAddress(c: Settings, p: Packet, l: LeaseModel.Lease, deployed: bool, r: Reply)
    requires Gated(c, p, l, deployed, r)
    ensures r.yourIP == l.ip
  {
  }

  lemma AckedTerms(s: LeaseModel.Site, w: World, e: Event, mac: string)
    requires s.Ok() && Acked(s, w, e).Some? && e.AllocateFor? && e.mac == mac
    ensures var l := LeaseModel.Allocate(s, w.mem.value, w.clock, Canon(mac)).lease.value;
      Acked(s, w, e) == Offered(s, w, e) == Some(Grant(Canon(mac), l.ip, w.clock + s.leaseTime))
  {
  }
}
