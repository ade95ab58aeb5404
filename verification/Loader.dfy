/**
  The user-space side of the redirect: pkg/manager/manager.go writes the configuration the hooks read, and
  pkg/connection/utils.go asks the getsockopt hook where an accepted connection was going.
 */
module Loader {
  import opened Words
  import opened Wrappers
  import opened Text
  import opened Mirrors

  /** The outcome of LoadEPF's configuration step; indexing a nil address or a missing CIDR field panics in Go. */
  datatype LoadResult = Loaded | Failed | Panicked

  /** The last four bytes of a textual IPv6 address, None for any other text. */
  type Ipv6Text = string -> Option<Quad>

  /** The last four bytes of what net.ParseIP returns, None for nil. */
  function ParseIP(address: string, ipv6: Ipv6Text): (r: Option<Quad>) {
    match ParseQuad(address)
    case Some(q) => Some(q)
    case None => ipv6(address)
  }

  lemma ParseIPOfQuad(q: Quad, ipv6: Ipv6Text)
    ensures ParseIP(PrintQuad(q), ipv6) == Some(q)
  {
    QuadRoundTrip(q);
  }

  /** Computes the host-order number of a dotted quad; None is Go's panic on a nil address. */
  method ToInt(address: string, ipv6: Ipv6Text) returns (r: Option<int>)
    ensures r == match ParseIP(address, ipv6) case Some(q) => Some(HostOrder(q)) case None => None
  {
    match ParseIP(address, ipv6) {
      case None =>
        return None;
      case Some(ip) =>
        var i: int := ip.a * 16777216;
        i := i + ip.b * 65536;
        i := i + ip.c * 256;
        i := i + ip.d;
        return Some(i);
    }
  }

  /** The configuration step of LoadEPF: fills the entry the hooks read from the textual address and pod CIDR. */
  method LoadConfig(hooks: Hooks, address: string, proxyPort: int, pid: nat, podCidr: string, ipv6: Ipv6Text)
    returns (r: LoadResult)
    requires pid < 0x1_0000_0000_0000_0000
    modifies hooks`mapConfig
    ensures r == Loaded ==>
              var cidr := Split(podCidr, '/');
              && |cidr| > 1 && Atoi(cidr[1]).Some? && ParseIP(address, ipv6).Some? && ParseIP(cidr[0], ipv6).Some?
              && hooks.mapConfig == Config(HostOrder(ParseIP(address, ipv6).value), proxyPort % 0x1_0000, pid,
                                           HostOrder(ParseIP(cidr[0], ipv6).value), Atoi(cidr[1]).value % 0x1_0000)
    ensures r != Loaded ==> hooks.mapConfig == old(hooks.mapConfig)
    ensures r == Failed <==> |Split(podCidr, '/')| > 1 && Atoi(Split(podCidr, '/')[1]).None?
    ensures r == Panicked <==>
              var cidr := Split(podCidr, '/');
              |cidr| == 1 || (Atoi(cidr[1]).Some? && (ParseIP(address, ipv6).None? || ParseIP(cidr[0], ipv6).None?))
  {
    var cidr := Split(podCidr, '/');
    if |cidr| < 2 {
      return Panicked;
    }
    var i := Atoi(cidr[1]);
    if i.None? {
      return Failed;
    }
    var proxyAddr := ToInt(address, ipv6);
    var network := ToInt(cidr[0], ipv6);
    if proxyAddr.None? || network.None? {
      return Panicked;
    }
    hooks.mapConfig := Config(proxyAddr.value, proxyPort % 0x1_0000, pid, network.value, i.value % 0x1_0000);
    return Loaded;
  }

  /** The text of a CIDR block. */
  function PrintCidr(network: Quad, bits: nat): (s: string) {
    PrintQuad(network) + "/" + Decimal(bits)
  }

  lemma CidrFields(network: Quad, bits: U16)
    ensures var cidr := Split(PrintCidr(network, bits), '/');
            |cidr| == 2 && cidr[0] == PrintQuad(network) && Atoi(cidr[1]) == Some(bits)
  {
    AtoiRoundTrip(bits);
    QuadHasNoSlash(network);
    SplitNoSeparator(Decimal(bits), '/');
    SplitFirst(PrintQuad(network), Decimal(bits), '/');
  }

  // The texts of an address and of a block are what LoadConfig can use.
  lemma TextsLoad(address: Quad, network: Quad, bits: U16, ipv6: Ipv6Text)
    ensures var cidr := Split(PrintCidr(network, bits), '/');
            && |cidr| > 1 && Atoi(cidr[1]) == Some(bits) && ParseIP(cidr[0], ipv6) == Some(network)
            && ParseIP(PrintQuad(address), ipv6) == Some(address)
  {
    CidrFields(network, bits);
    ParseIPOfQuad(network, ipv6);
    ParseIPOfQuad(address, ipv6);
  }

  /**
    The configured text decides which destinations are redirected: for a block a.b.c.d/n the entry LoadConfig
    writes makes the kernel's mask test accept exactly the 2^(32-n) addresses from a.b.c.d on, and nothing at
    all when a.b.c.d is not the first address of a block.
   */
  lemma CidrTextMeansRange(network: Quad, bits: U16, ip: Quad)
    requires 1 <= bits <= 32
    ensures var cidr := Split(PrintCidr(network, bits), '/');
            && |cidr| > 1
            && ParseQuad(cidr[0]) == Some(network)
            && Atoi(cidr[1]) == Some(bits)
    ensures And(HostOrder(ip), Mask(bits)) == HostOrder(network) <==>
              && HostOrder(network) % Pow2(32 - bits) == 0
              && HostOrder(network) <= HostOrder(ip) < HostOrder(network) + Pow2(32 - bits)
  {
    CidrFields(network, bits);
    QuadRoundTrip(network);
    MaskTestIsRangeTest(HostOrder(ip), HostOrder(network), bits);
  }

  /** What the default settings look like as text. */
  lemma DefaultTexts()
    ensures PrintQuad(Quad(127, 0, 0, 1)) == "127.0.0.1"
    ensures PrintCidr(Quad(10, 244, 0, 0), 16) == "10.244.0.0/16"
    ensures PrintTarget(Target(Quad(10, 244, 0, 7), 8080)) == "10.244.0.7:8080"
  {
    SmallNumbers();
    assert PrintTarget(Target(Quad(10, 244, 0, 7), 8080)) == "10" + "." + "244" + "." + "0" + "." + "7" + ":" + "8080";
  }

  lemma SmallNumbers()
    ensures Decimal(0) == "0" && Decimal(1) == "1" && Decimal(7) == "7" && Decimal(10) == "10" && Decimal(16) == "16"
    ensures Decimal(127) == "127" && Decimal(244) == "244" && Decimal(8080) == "8080"
  {
    assert Decimal(12) == "12" && Decimal(24) == "24" && Decimal(80) == "80" && Decimal(808) == "808";
  }

  // ---- Recovering the destination ----

  /** How findTargetFromConnection reads the sockaddr_in it was given. */
  function DecodeSockAddr(b: seq<U8>): Target
    requires |b| >= 8
  {
    Target(Quad(b[4], b[5], b[6], b[7]), (b[2] as int) * 0x100 + b[3] as int)
  }

  /** The endpoint a destination names. */
  function TargetOf(d: Dest): Target {
    Target(QuadOf(d.ip), d.port)
  }

  lemma DecodeInvertsFill(family: U32, d: Dest, b: seq<U8>)
    requires |b| >= 8 && b[..8] == SockAddrBytes(family, d)
    ensures DecodeSockAddr(b) == TargetOf(d)
  {
    assert forall i :: 0 <= i < 8 ==> b[i] == b[..8][i];
  }

  /**
    Asks for the original destination of a connection accepted from a source port, in network order.
    When the hook does not answer, the kernel's own result for the option decides, with the bytes it wrote.
   */
  method FindTargetFromConnection(hooks: Hooks, skDstPort: U16, kernelResult: I32, kernelBytes: seq<U8>)
    returns (r: Option<Target>)
    requires |kernelBytes| == SOCKADDR_IN_SIZE
    ensures match Lookup(hooks.View(), Swap16(skDstPort))
            case Some(d) => r == Some(TargetOf(d))
            case None => r == if kernelResult == 0 then Some(DecodeSockAddr(kernelBytes)) else None
  {
    var originalDst := new U8[16];
    forall i | 0 <= i < 16 {
      originalDst[i] := if kernelResult == 0 then kernelBytes[i] else 0;
    }
    assert kernelResult == 0 ==> originalDst[..] == kernelBytes;
    var ctx := new BpfSockopt(SO_ORIGINAL_DST, AF_INET, IPPROTO_TCP, skDstPort, originalDst, 16, kernelResult);
    var verdict := hooks.CgSockOpt(ctx);
    ghost var d := Lookup(hooks.View(), Swap16(skDstPort));
    if ctx.retval != 0 {
      return None;
    }
    if d.Some? {
      DecodeInvertsFill(AF_INET, d.value, originalDst[..]);
    }
    return Some(DecodeSockAddr(originalDst[..]));
  }
}
