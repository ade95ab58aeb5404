/**
  The three kernel hooks of ebpf/mirrors.c over their shared maps, and the two-table specification they
  are proved against. The host is little-endian; the process id inside its namespace and the socket cookie
  arrive as inputs.
 */
module Mirrors {
  import opened Words
  import opened Wrappers

  const AF_INET := 2
  const IPPROTO_TCP := 6
  const BPF_SOCK_OPS_ACTIVE_ESTABLISHED_CB := 4
  const SO_ORIGINAL_DST := 80
  const MAX_CONNECTIONS := 20000
  const SOCKADDR_IN_SIZE := 16

  datatype Config = Config(proxyAddr: U32, proxyPort: U16, proxyPid: U64, network: U32, mask: U16)
  {
    /** Any other prefix length makes the hook shift by an amount C leaves undefined. */
    predicate Valid() {
      1 <= mask <= 32
    }
  }

  datatype Socket = Socket(srcAddr: U32, srcPort: U16, dstAddr: U32, dstPort: U16)

  // ---- Specification ----

  /** A destination by its numbers: the address with the first octet most significant, and the port. */
  datatype Dest = Dest(ip: U32, port: U16)

  /** One connect() call as the hook sees it. */
  datatype Attempt = Attempt(family: U32, protocol: U32, dst: Dest, pid: I32, cookie: U64)

  datatype Tables = Tables(socks: map<U32, Socket>, ports: map<U16, U64>)

  const EMPTY := Tables(map[], map[])

  /** The ports the hook never redirects. */
  const EXEMPT_PORTS: set<U16> := {8080, 8181, 18000, 18001}

  /** Which connects are sent to the proxy instead of their destination. */
  ghost predicate Redirects(conf: Config, a: Attempt)
    requires conf.Valid()
  {
    && a.family == AF_INET
    && a.protocol == IPPROTO_TCP
    && InBlock(a.dst.ip, conf.network, conf.mask)
    && ToU64(a.pid) != conf.proxyPid
    && a.dst.port !in EXEMPT_PORTS
  }

  /**
    The connects that are redirected, by number: IPv4 (2) and TCP (6), into the configured block, to none of the two
    kubelet ports and none of the first two ports of the proxy, by any process but the proxy.
   */
  lemma RedirectsByNumber(conf: Config, a: Attempt)
    requires conf.Valid() && conf.proxyPid < 0x8000_0000
    ensures Redirects(conf, a) <==>
              && a.family == 2 && a.protocol == 6
              && InBlock(a.dst.ip, conf.network, conf.mask)
              && a.pid != conf.proxyPid
              && a.dst.port != 8080 && a.dst.port != 8181 && a.dst.port != 18000 && a.dst.port != 18001
  {
    PidTest(a.pid, conf.proxyPid);
  }

  /** bpf_map_update_elem on a hash map with room for cap entries; a failed update is ignored. */
  function Put<K, V>(m: map<K, V>, k: K, v: V, cap: nat): (r: map<K, V>)
    ensures m.Keys <= r.Keys <= m.Keys + {k}
    ensures k in r.Keys <==> k in m || |m| < cap
    ensures k in r ==> r[k] == v
    ensures forall j :: j in m && j != k ==> r[j] == m[j]
    ensures |m| <= cap ==> |r| <= cap
  {
    if k in m then
      assert m[k := v].Keys == m.Keys;
      assert |m[k := v].Keys| == |m.Keys|;
      m[k := v]
    else if |m| < cap then m[k := v]
    else m
  }

  /** map_socks has 32-bit keys, so a cookie is stored under its low half. */
  function Key(cookie: U64): (k: U32) {
    Low32(cookie)
  }

  function Remember(t: Tables, cookie: U64, dst: Dest): Tables {
    t.(socks := Put(t.socks, Key(cookie), Socket(0, 0, dst.ip, dst.port), MAX_CONNECTIONS))
  }

  function Index(t: Tables, cookie: U64, port: U16): Tables {
    if Key(cookie) in t.socks then t.(ports := Put(t.ports, port, cookie, MAX_CONNECTIONS)) else t
  }

  /** Following port -> cookie -> destination. */
  function Lookup(t: Tables, port: U16): Option<Dest> {
    if port in t.ports && Key(t.ports[port]) in t.socks
    then Some(Dest(t.socks[Key(t.ports[port])].dstAddr, t.socks[Key(t.ports[port])].dstPort))
    else None
  }

  /** The address octets of a destination in network order. */
  function QuadOf(ip: U32): Quad {
    Quad(ip / 0x100_0000, ip / 0x1_0000 % 0x100, ip / 0x100 % 0x100, ip % 0x100)
  }

  lemma QuadOfHostOrder(q: Quad)
    ensures QuadOf(HostOrder(q)) == q
  {
    BytesOfQuad(q);
  }

  /** The first eight bytes of a sockaddr_in that names dst. */
  function SockAddrBytes(family: U32, dst: Dest): (b: seq<U8>)
    ensures |b| == 8
  {
    var q := QuadOf(dst.ip);
    [family % 0x100, family / 0x100 % 0x100, dst.port / 0x100, dst.port % 0x100, q.a, q.b, q.c, q.d]
  }

  lemma TwoBytes(x: U16)
    ensures x / 0x100 % 0x100 == x / 0x100 && x % 0x100 + x / 0x100 * 0x100 == x
  {
  }

  /** The sockaddr bytes by number: the family in host order, then port and address most significant byte first. */
  lemma SockAddrByNumber(family: U16, dst: Dest)
    ensures var b := SockAddrBytes(family, dst);
            && (b[0] as int) + (b[1] as int) * 0x100 == family
            && (b[2] as int) * 0x100 + (b[3] as int) == dst.port
            && HostOrder(Quad(b[4], b[5], b[6], b[7])) == dst.ip
  {
    TwoBytes(family);
    TwoBytes(dst.port);
    QuadOfWord(dst.ip);
  }

  // ---- Hooks ----

  /** struct bpf_sock_addr: the arguments of connect(), address and port in network order. */
  class BpfSockAddr {
    var userFamily: U32
    var protocol: U32
    var userIp4: U32
    var userPort: U32

    constructor (family: U32, protocol: U32, ip4: U32, port: U32)
      ensures userFamily == family && this.protocol == protocol && userIp4 == ip4 && userPort == port
    {
      userFamily, this.protocol, userIp4, userPort := family, protocol, ip4, port;
    }

    /** The destination the two network-order fields denote. */
    function Dst(): Dest
      reads this
    {
      Dest(Swap32(userIp4), Swap16(Low16(userPort)))
    }

    function AttemptBy(pid: I32, cookie: U64): Attempt
      reads this
    {
      Attempt(userFamily, protocol, Dst(), pid, cookie)
    }
  }

  /** struct bpf_sockopt with the socket it is called on. */
  class BpfSockopt {
    const optname: I32
    const skFamily: U32
    const skProtocol: U32
    const skDstPort: U16
    const optval: array<U8>
    var optlen: I32
    var retval: I32

    constructor (optname: I32, family: U32, protocol: U32, dstPort: U16, optval: array<U8>, optlen: I32, retval: I32)
      ensures this.optname == optname && skFamily == family && skProtocol == protocol && skDstPort == dstPort
      ensures this.optval == optval && this.optlen == optlen && this.retval == retval
    {
      this.optname, skFamily, skProtocol, skDstPort := optname, family, protocol, dstPort;
      this.optval, this.optlen, this.retval := optval, optlen, retval;
    }
  }

  class Hooks {
    var mapConfig: Config    // the one entry of an array map: there from the start, all zeros
    var mapSocks: map<U32, Socket>
    var mapPorts: map<U16, U64>

    constructor ()
      ensures mapConfig == Config(0, 0, 0, 0, 0) && View() == EMPTY
    {
      mapConfig, mapSocks, mapPorts := Config(0, 0, 0, 0, 0), map[], map[];
    }

    ghost function View(): Tables
      reads this
    {
      Tables(mapSocks, mapPorts)
    }

    /** The configuration has been written: a zero entry makes the connect hook shift by 32. */
    ghost predicate Valid()
      reads this
    {
      mapConfig.Valid()
    }

    ghost predicate WillRedirect(a: Attempt)
      requires Valid()
      reads this
    {
      Redirects(mapConfig, a)
    }

    /** Runs before connect(): sends a pod-to-pod connection to the proxy and remembers where it was going. */
    method CgConnect4(ctx: BpfSockAddr, nsPid: I32, cookie: U64) returns (verdict: int)
      requires Valid()
      modifies this`mapSocks, ctx`userIp4, ctx`userPort
      ensures verdict == 1
      ensures var a := old(ctx.AttemptBy(nsPid, cookie));
              if old(WillRedirect(a)) then
                && View() == Remember(old(View()), cookie, a.dst)
                && ctx.Dst() == Dest(mapConfig.proxyAddr, mapConfig.proxyPort)
                && ctx.userPort == PortField(mapConfig.proxyPort)
              else
                && View() == old(View())
                && ctx.userIp4 == old(ctx.userIp4) && ctx.userPort == old(ctx.userPort)
    {
      if ctx.userFamily != AF_INET {
        return 1;
      }
      if ctx.protocol != IPPROTO_TCP {
        return 1;
      }
      // Looking up key 0 in an array map cannot fail.
      var conf := mapConfig;
      var dstAddr := Swap32(ctx.userIp4);

      var mask := Mask(conf.mask);
      MaskTestIsRangeTest(dstAddr, conf.network, conf.mask);
      if And(Swap32(ctx.userIp4), mask) != conf.network {
        return 1;
      }

      SwapThenShift(ctx.userPort);
      var dstPort: U16 := Low16(Swap32(ctx.userPort) / 0x1_0000);

      if ToU64(nsPid) == conf.proxyPid {
        return 1;
      }
      if dstPort == 8080 || dstPort == 8181 {
        return 1;
      }
      if dstPort == 18000 || dstPort == 18001 {
        return 1;
      }

      mapSocks := Put(mapSocks, Low32(cookie), Socket(0, 0, dstAddr, dstPort), MAX_CONNECTIONS);

      SwapTwice(conf.proxyAddr);
      ctx.userIp4 := Swap32(conf.proxyAddr);
      ShiftThenSwap(conf.proxyPort);
      PortFieldReadsBack(conf.proxyPort);
      ctx.userPort := Swap32(Low32(conf.proxyPort * 0x1_0000));
      return 1;
    }

    /** Runs on socket events: once a redirected connection is established, its source port leads to its cookie. */
    method CgSockOps(family: U32, op: U32, localPort: U32, cookie: U64) returns (verdict: int)
      modifies this`mapPorts
      ensures verdict == 0
      ensures View() == if family == AF_INET && op == BPF_SOCK_OPS_ACTIVE_ESTABLISHED_CB
                        then Index(old(View()), cookie, Low16(localPort))
                        else old(View())
    {
      if family != AF_INET {
        return 0;
      }
      if op == BPF_SOCK_OPS_ACTIVE_ESTABLISHED_CB {
        if Low32(cookie) in mapSocks {
          var srcPort: U16 := Low16(localPort);
          mapPorts := Put(mapPorts, srcPort, cookie, MAX_CONNECTIONS);
        }
      }
      return 0;
    }

    /** What the getsockopt hook can answer: the option, the socket and the buffer fit, and both lookups succeed. */
    ghost predicate Answers(ctx: BpfSockopt)
      reads this
    {
      && ctx.optname == SO_ORIGINAL_DST
      && ctx.skFamily == AF_INET
      && ctx.skProtocol == IPPROTO_TCP
      && ctx.optval.Length >= SOCKADDR_IN_SIZE
      && Lookup(View(), Swap16(ctx.skDstPort)).Some?
    }

    /** Runs when the proxy asks for the original destination of a connection it accepted. */
    method CgSockOpt(ctx: BpfSockopt) returns (verdict: int)
      modifies ctx, ctx.optval
      ensures verdict == 1
      ensures if old(Answers(ctx)) then
                && ctx.optval[..8] == SockAddrBytes(AF_INET, Lookup(View(), Swap16(ctx.skDstPort)).value)
                && ctx.optval[8..] == old(ctx.optval[8..])
                && ctx.optlen == SOCKADDR_IN_SIZE && ctx.retval == 0
              else
                && ctx.optval[..] == old(ctx.optval[..])
                && ctx.optlen == old(ctx.optlen) && ctx.retval == old(ctx.retval)
    {
      if ctx.optname != 80 {
        return 1;
      }
      if ctx.skFamily != AF_INET {
        return 1;
      }
      if ctx.skProtocol != IPPROTO_TCP {
        return 1;
      }
      var srcPort := Swap16(ctx.skDstPort);
      if srcPort !in mapPorts {
        return 1;
      }
      var cookie := mapPorts[srcPort];
      if Low32(cookie) !in mapSocks {
        return 1;
      }
      var sock := mapSocks[Low32(cookie)];
      var sa := ctx.optval;
      if sa.Length < SOCKADDR_IN_SIZE {
        return 1;
      }

      ctx.optlen := SOCKADDR_IN_SIZE;
      FillSockAddr(sa, ctx.skFamily, sock);
      ctx.retval := 0;
      return 1;
    }
  }

  /** What the getsockopt hook answers, by number: option 80 on an IPv4 (2), TCP (6) socket, into at least 16 bytes. */
  lemma AnswersByNumber(hooks: Hooks, ctx: BpfSockopt)
    ensures hooks.Answers(ctx) <==>
              && ctx.optname == 80 && ctx.skFamily == 2 && ctx.skProtocol == 6 && ctx.optval.Length >= 16
              && Lookup(hooks.View(), Swap16(ctx.skDstPort)).Some?
  {
  }

  /** Stores family, address and port in the buffer, the last two in network order. */
  method FillSockAddr(sa: array<U8>, family: U32, sock: Socket)
    requires sa.Length >= SOCKADDR_IN_SIZE
    modifies sa
    ensures sa[..8] == SockAddrBytes(family, Dest(sock.dstAddr, sock.dstPort))
    ensures sa[8..] == old(sa[8..])
  {
    StoredAddress(sock.dstAddr);
    StoredPort(sock.dstPort);
    var address := Store32(Swap32(sock.dstAddr));
    var port := Swap16(sock.dstPort);
    sa[0], sa[1] := family % 0x100, family / 0x100 % 0x100;
    sa[4], sa[5], sa[6], sa[7] := address.a, address.b, address.c, address.d;
    sa[2], sa[3] := port % 0x100, port / 0x100;
  }

  lemma StoredPort(port: U16)
    ensures Swap16(port) % 0x100 == port / 0x100 && Swap16(port) / 0x100 == port % 0x100
  {
  }

  lemma StoredAddress(ip: U32)
    ensures Store32(Swap32(ip)) == QuadOf(ip)
  {
    QuadOfWord(ip);
    SwapThenStore(QuadOf(ip));
  }
}
