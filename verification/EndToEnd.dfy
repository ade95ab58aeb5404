/**
  From connect() to the receiving proxy's dial: the redirect, the two tables, the sockaddr bytes, the printed
  header, the tunnel and the parse, composed.
 */
module EndToEnd {
  import opened Words
  import opened Wrappers
  import opened Text
  import opened Mirrors
  import opened Queues
  import H = History
  import L = Loader
  import T = Tunnel
  import C = Conservation
  import P = HandshakeProgress

  // The destination the hook computes from the network-order fields of connect() is the one they were made from.
  lemma FieldsDenoteTarget(q: Quad, port: U16)
    ensures Dest(Swap32(Load32(q)), Swap16(Low16(PortField(port)))) == Dest(HostOrder(q), port)
    ensures L.TargetOf(Dest(HostOrder(q), port)) == Target(q, port)
  {
    LoadThenSwap(q);
    PortFieldReadsBack(port);
    QuadOfHostOrder(q);
  }

  lemma RememberedAndIndexed(t: Tables, cookie: U64, dst: Dest, port: U16)
    requires Key(cookie) in t.socks || |t.socks| < MAX_CONNECTIONS
    requires port in t.ports || |t.ports| < MAX_CONNECTIONS
    ensures Lookup(Index(Remember(t, cookie, dst), cookie, port), port) == Some(dst)
  {
  }

  /**
    The code path of one redirected connection: for every address and port, what the proxy decodes after accepting
    the connection is what the application passed to connect().
   */
  method RedirectAndRecover(hooks: Hooks, q: Quad, port: U16, nsPid: I32, cookie: U64, localPort: U16,
                           kernelResult: I32, kernelBytes: seq<U8>)
    returns (t: Option<Target>)
    requires hooks.Valid() && |kernelBytes| == SOCKADDR_IN_SIZE
    requires hooks.WillRedirect(Attempt(AF_INET, IPPROTO_TCP, Dest(HostOrder(q), port), nsPid, cookie))
    requires Key(cookie) in hooks.mapSocks || |hooks.mapSocks| < MAX_CONNECTIONS
    requires localPort in hooks.mapPorts || |hooks.mapPorts| < MAX_CONNECTIONS
    modifies hooks
    ensures t == Some(Target(q, port))
  {
    FieldsDenoteTarget(q, port);
    RememberedAndIndexed(hooks.View(), cookie, Dest(HostOrder(q), port), localPort);
    Swap16Twice(localPort);
    var ctx := new BpfSockAddr(AF_INET, IPPROTO_TCP, Load32(q), PortField(port));
    var v := hooks.CgConnect4(ctx, nsPid, cookie);
    v := hooks.CgSockOps(AF_INET, BPF_SOCK_OPS_ACTIVE_ESTABLISHED_CB, localPort, cookie);
    t := L.FindTargetFromConnection(hooks, Swap16(localPort), kernelResult, kernelBytes);
  }

  function ConfigOf(a: Quad, proxyPort: int, pid: U64, n: Quad, bits: U16): Config {
    Config(HostOrder(a), proxyPort % 0x1_0000, pid, HostOrder(n), bits)
  }

  // The connect() hook on an address given by its octets, for a proxy address given by its octets.
  method ConnectTo(hooks: Hooks, a: Quad, attempt: Attempt, ip: Quad) returns (userIp4: U32, userPort: U32)
    requires hooks.Valid() && hooks.mapConfig.proxyAddr == HostOrder(a) && attempt.dst.ip == HostOrder(ip)
    modifies hooks`mapSocks
    ensures if Redirects(hooks.mapConfig, attempt) then
              && userIp4 == Load32(a) && userPort == PortField(hooks.mapConfig.proxyPort)
              && hooks.View() == Remember(old(hooks.View()), attempt.cookie, attempt.dst)
            else
              userIp4 == Load32(ip) && userPort == PortField(attempt.dst.port) && hooks.View() == old(hooks.View())
  {
    FieldsDenoteTarget(ip, attempt.dst.port);
    var ctx := new BpfSockAddr(attempt.family, attempt.protocol, Load32(ip), PortField(attempt.dst.port));
    assert ctx.AttemptBy(attempt.pid, attempt.cookie) == attempt;
    var verdict := hooks.CgConnect4(ctx, attempt.pid, attempt.cookie);
    SameField(a, ctx.userIp4);
    return ctx.userIp4, ctx.userPort;
  }

  // Texts that can be used become the entry.
  method LoadUsable(hooks: Hooks, address: string, proxyPort: int, pid: U64, podCidr: string, ipv6: L.Ipv6Text,
                    a: Quad, n: Quad, bits: U16)
    returns (r: L.LoadResult)
    requires L.ParseIP(address, ipv6) == Some(a)
    requires var cidr := Split(podCidr, '/');
             |cidr| > 1 && Atoi(cidr[1]) == Some(bits) && L.ParseIP(cidr[0], ipv6) == Some(n)
    modifies hooks`mapConfig
    ensures r == L.Loaded && hooks.mapConfig == ConfigOf(a, proxyPort, pid, n, bits)
  {
    r := L.LoadConfig(hooks, address, proxyPort, pid, podCidr, ipv6);
  }

  // The configured texts become the entry.
  method LoadTexts(hooks: Hooks, a: Quad, proxyPort: int, pid: U64, n: Quad, bits: U16, ipv6: L.Ipv6Text)
    returns (r: L.LoadResult)
    modifies hooks`mapConfig
    ensures r == L.Loaded && hooks.mapConfig == ConfigOf(a, proxyPort, pid, n, bits)
  {
    L.TextsLoad(a, n, bits, ipv6);
    r := LoadUsable(hooks, PrintQuad(a), proxyPort, pid, L.PrintCidr(n, bits), ipv6, a, n, bits);
  }

  /** By number, a connect() that the pod block n/bits and the proxy's pid subject to redirection; see BlockByNumber. */
  ghost predicate IsMeshed(n: Quad, bits: U16, pid: int, family: U32, protocol: U32, ip: Quad, port: U16, nsPid: I32)
    requires 1 <= bits <= 32
  {
    var first := n.a * 0x100_0000 + n.b * 0x1_0000 + n.c * 0x100 + n.d;
    var wanted := ip.a * 0x100_0000 + ip.b * 0x1_0000 + ip.c * 0x100 + ip.d;
    && family == 2 && protocol == 6 && nsPid != pid
    && port != 8080 && port != 8181 && port != 18000 && port != 18001
    && InBlock(wanted, first, bits)
  }

  lemma BlockByNumber(wanted: U32, first: U32, bits: U16)
    requires 1 <= bits <= 32
    ensures InBlock(wanted, first, bits) <==> first % Pow2(32 - bits) == 0 && first <= wanted < first + Pow2(32 - bits)
  {
  }

  lemma MeshedIsRedirected(a: Quad, proxyPort: int, pid: U64, n: Quad, bits: U16, attempt: Attempt, ip: Quad)
    requires 1 <= bits <= 32 && pid < 0x8000_0000 && attempt.dst.ip == HostOrder(ip)
    ensures Redirects(ConfigOf(a, proxyPort, pid, n, bits), attempt) <==>
              IsMeshed(n, bits, pid, attempt.family, attempt.protocol, ip, attempt.dst.port, attempt.pid)
  {
    RedirectsByNumber(ConfigOf(a, proxyPort, pid, n, bits), attempt);
  }

  /**
    From the configured texts to a redirect. With the proxy's address a, its port and the pod block n/bits given as
    text, the configuration is loaded, and a connect() to ip:port then leaves for a:proxyPort if and only if it is
    IPv4 and TCP, not the proxy's, not to one of the four exempt ports, n is the first address of a block, and ip is
    one of its 2^(32-bits) addresses. Where it was going is remembered; any other connect() is left as it was.
   */
  method ConfiguredConnect(hooks: Hooks, a: Quad, proxyPort: int, pid: U64, n: Quad, bits: U16, ipv6: L.Ipv6Text,
                           attempt: Attempt, ip: Quad)
    returns (r: L.LoadResult, userIp4: U32, userPort: U32)
    requires 1 <= bits <= 32 && pid < 0x8000_0000 && attempt.dst.ip == HostOrder(ip)
    modifies hooks
    ensures r == L.Loaded
    ensures if IsMeshed(n, bits, pid, attempt.family, attempt.protocol, ip, attempt.dst.port, attempt.pid) then
              && userIp4 == Load32(a) && userPort == PortField(proxyPort % 0x1_0000)
              && hooks.View() == Remember(old(hooks.View()), attempt.cookie, attempt.dst)
            else
              userIp4 == Load32(ip) && userPort == PortField(attempt.dst.port) && hooks.View() == old(hooks.View())
  {
    r := LoadTexts(hooks, a, proxyPort, pid, n, bits, ipv6);
    MeshedIsRedirected(a, proxyPort, pid, n, bits, attempt, ip);
    userIp4, userPort := ConnectTo(hooks, a, attempt, ip);
  }

  // A field that swaps to the number of an address carries that address.
  lemma SameField(a: Quad, field: U32)
    ensures Swap32(field) == HostOrder(a) ==> field == Load32(a)
  {
    LoadThenSwap(a);
    SwapTwice(Load32(a));
    SwapTwice(field);
  }

  /**
    The hooks run the specification: whatever event the kernel delivers, the hook that handles it takes the
    tables through exactly one step of a run.
   */
  method Deliver(hooks: Hooks, e: H.Event)
    requires hooks.Valid()
    modifies hooks`mapSocks, hooks`mapPorts
    ensures hooks.View() == H.Step(hooks.mapConfig, old(hooks.View()), e)
  {
    match e {
      case Connect(a) =>
        SwapTwice(a.dst.ip);
        PortFieldReadsBack(a.dst.port);
        var ctx := new BpfSockAddr(a.family, a.protocol, Swap32(a.dst.ip), PortField(a.dst.port));
        assert ctx.AttemptBy(a.pid, a.cookie) == a;
        var v := hooks.CgConnect4(ctx, a.pid, a.cookie);
      case SockOps(family, op, localPort, cookie) =>
        var v := hooks.CgSockOps(family, op, localPort, cookie);
    }
  }

  /** A connect() of the run that asked for an address and port given in network order, and was redirected. */
  ghost predicate Asked(conf: Config, e: H.Event, q: Quad, port: U16)
    requires conf.Valid()
  {
    e.Redirected(conf) && e.attempt.dst == Dest(Swap32(Load32(q)), Swap16(Low16(PortField(port))))
  }

  /**
    End to end, in the middle of any run. A connection that was redirected at step j, was tracked and holds its port
    is recovered with the destination its application asked for if and only if no redirected connect() with the same
    truncated cookie has gone elsewhere since. Of a destination so recovered, a receiving proxy that connects has
    dialled exactly that if and only if its read returned the whole header (or all but the 0 of port 0), which
    record-preserving reads always do.
   */
  lemma DestinationIsPreserved(conf: Config, es: H.Run, j: nat, i: nat, q: Quad, port: U16, localPort: U16,
                               mode: Mode, loopback: Bytes, s: T.State)
    requires conf.Valid() && H.Connection(conf, es, j, i, localPort) && H.Decides(conf, es, i, localPort)
    requires Asked(conf, es[j], q, port)
    ensures var asked := Dest(HostOrder(q), port);
            Lookup(H.After(conf, es), localPort) == Some(asked) <==>
              H.LastTo(conf, es, Key(es[j].Cookie())) == Some(asked)
    ensures Lookup(H.After(conf, es), localPort) == Some(Dest(HostOrder(q), port)) ==>
              var header := PrintTarget(L.TargetOf(Lookup(H.After(conf, es), localPort).value));
              T.Reachable(mode, header, loopback, s) && s.c.connected ==>
                && (ParseTarget(s.f.first) == Some(Target(q, port)) <==> NamesTarget(s.f.first, Target(q, port)))
                && (mode.Records? ==> s.f.first == header)
  {
    FieldsDenoteTarget(q, port);
    H.LiveConnectionRecoversDestination(conf, es, j, i, localPort);
    var header := PrintTarget(Target(q, port));
    if T.Reachable(mode, header, loopback, s) && s.c.connected {
      WholeHeaderOrElsewhere(Target(q, port), mode, loopback, s);
    }
  }

  /** The fronts of a header that name its endpoint: the whole, and at port 0 also the text without the last digit. */
  predicate NamesTarget(text: Bytes, t: Target) {
    text == PrintTarget(t) || (t.port == 0 && text + "0" == PrintTarget(t))
  }

  /** A receiving proxy that connects reaches the printed endpoint if and only if its read returned such a text. */
  lemma WholeHeaderOrElsewhere(t: Target, mode: Mode, loopback: Bytes, s: T.State)
    requires T.Reachable(mode, PrintTarget(t), loopback, s) && s.c.connected
    ensures ParseTarget(s.f.first) == Some(t) <==> NamesTarget(s.f.first, t)
    ensures mode.Records? ==> s.f.first == PrintTarget(t)
  {
    var header := PrintTarget(t);
    TargetRoundTrip(t);
    C.ForwardConservation(mode, header, loopback, s);
    if mode.Records? {
      C.RecordsAreTransparent(header, loopback, s);
    }
    if s.f.first != header {
      PrefixIsAnotherTarget(t, |s.f.first|);
      assert s.f.first == header[..|s.f.first|];
      if t.port == 0 {
        assert header == header[..|header| - 1] + "0";
      }
    }
  }

  /** The run of one connection: the redirected connect() and its establishment. */
  function OneConnection(a: Attempt, localPort: U32): H.Run {
    [H.Connect(a), H.SockOps(AF_INET, BPF_SOCK_OPS_ACTIVE_ESTABLISHED_CB, localPort, a.cookie)]
  }

  // The run of one connection meets every hypothesis of DestinationIsPreserved.
  lemma OneConnectionQualifies(conf: Config, a: Attempt, localPort: U32)
    requires conf.Valid() && Redirects(conf, a)
    ensures var es := OneConnection(a, localPort);
            && H.Connection(conf, es, 0, 1, Low16(localPort))
            && H.Decides(conf, es, 1, Low16(localPort))
            && H.LastTo(conf, es, Key(a.cookie)) == Some(a.dst)
  {
    var es := OneConnection(a, localPort);
    assert H.Front(es) == [es[0]] && es[..1] == [es[0]] && H.Front([es[0]]) == [];
    assert H.Admitted(conf, []) == {};
    assert H.Admitted(conf, [es[0]]) == {Key(a.cookie)};
    assert H.LastTo(conf, [es[0]], Key(a.cookie)) == Some(a.dst);
    assert H.AdmittedPorts(conf, [es[0]]) == {};
  }

  lemma OneConnectionIsOrdinary(a: Attempt, localPort: U32)
    ensures H.DistinctKeys(OneConnection(a, localPort)) && H.EstablishedOnce(OneConnection(a, localPort))
  {
  }

  lemma OneConnectionIsRecovered(conf: Config, a: Attempt, q: Quad, port: U16, localPort: U32)
    requires conf.Valid() && Asked(conf, H.Connect(a), q, port)
    ensures Lookup(H.After(conf, OneConnection(a, localPort)), Low16(localPort)) == Some(Dest(HostOrder(q), port))
  {
    OneConnectionQualifies(conf, a, localPort);
    FieldsDenoteTarget(q, port);
    var s := T.Init(Stream, [], []);
    DestinationIsPreserved(conf, OneConnection(a, localPort), 0, 1, q, port, Low16(localPort), Stream, [], s);
  }

  /** Every redirected destination can be reached: the very first connection can bring the far proxy to dial it. */
  lemma DestinationIsReached(conf: Config, a: Attempt, q: Quad, port: U16, localPort: U32, mode: Mode, loopback: Bytes)
    returns (s: T.State)
    requires conf.Valid() && Asked(conf, H.Connect(a), q, port) && loopback != PrintTarget(Target(q, port))
    ensures var d := Lookup(H.After(conf, OneConnection(a, localPort)), Low16(localPort));
            && d.Some?
            && T.Reachable(mode, PrintTarget(L.TargetOf(d.value)), loopback, s)
            && s.c.connected && ParseTarget(s.f.first) == Some(Target(q, port))
  {
    var header := PrintTarget(Target(q, port));
    TargetRoundTrip(Target(q, port));
    assert header[..|header|] == header;
    P.OneWrite(header);
    s := P.ShortHeaderReadIsDialled(mode, header, loopback, |header|);
    OneConnectionIsRecovered(conf, a, q, port, localPort);
    FieldsDenoteTarget(q, port);
  }

  /**
    Which tunnels are safe for a printed endpoint, decided before any byte is sent: every connection that is made
    reaches that endpoint, and no target byte is ever taken with the answer, if and only if reads preserve records.
   */
  lemma OnlyRecordsAreTransparent(mode: Mode, t: Target, loopback: Bytes)
    requires PrintTarget(t) != loopback
    ensures (forall s :: T.Reachable(mode, PrintTarget(t), loopback, s) && s.c.connected ==>
               ParseTarget(s.f.first) == Some(t)) <==> mode.Records?
    ensures (forall s :: T.Reachable(mode, PrintTarget(t), loopback, s) ==> |s.r.ack| <= 1) <==> mode.Records?
  {
    var header := PrintTarget(t);
    TargetRoundTrip(t);
    match mode {
      case Stream =>
        var m := if header[..1] == loopback then 2 else 1;
        P.OneWrite(header);
        var s := P.ShortHeaderReadIsDialled(Stream, header, loopback, m);
        WholeHeaderOrElsewhere(t, Stream, loopback, s);
        s := P.ServerFirstBytesCanBeLost(header, loopback, "!");
      case Records =>
        forall s | T.Reachable(mode, header, loopback, s)
          ensures s.c.connected ==> ParseTarget(s.f.first) == Some(t)
          ensures |s.r.ack| <= 1
        {
          C.RecordsAreTransparent(header, loopback, s);
        }
    }
  }
}
