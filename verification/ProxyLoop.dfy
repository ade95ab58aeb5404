/**
  The connects that one application connect sets off. Every pod of the mesh runs the hooks with its own
  configuration and a proxy that listens on an internal address and, at every address of the pod, on the cluster
  ports. A connect that arrives at a proxy's listener makes that proxy connect again.
 */
module ProxyLoop {
  import opened Words
  import opened Wrappers
  import opened Mirrors
  import H = History

  const CLUSTER_PORT: U16 := 18001
  const CLUSTER_TLS_PORT: U16 := 18443
  const LOCALHOST: U32 := 0x7f00_0001

  /** A pod with its hooks' configuration and the pid of its proxy; the TLS listener needs certificates. */
  datatype Pod = Pod(conf: Config, pid: I32, tls: bool)
  {
    /** The port the proxy connects to when it is the sender. */
    function ClusterPort(): U16 {
      if tls then CLUSTER_TLS_PORT else CLUSTER_PORT
    }

    /** The address and port of the internal listener. */
    function Own(): Dest {
      Dest(conf.proxyAddr, conf.proxyPort)
    }
  }

  /** The pods that have a proxy, by address. */
  type Mesh = map<U32, Pod>

  /** 127.0.0.0/8, and 0.0.0.0, which connects to the host itself. */
  predicate IsLocal(ip: U32) {
    ip == 0 || ip / 0x100_0000 == 127
  }

  /** No pod has a local address, and no two listeners of a pod share a port. */
  predicate Valid(m: Mesh) {
    forall ip :: ip in m ==>
      m[ip].conf.Valid() && !IsLocal(ip) && m[ip].conf.proxyPort !in {CLUSTER_PORT, CLUSTER_TLS_PORT}
  }

  /** The loaders wrote the proxies' own pids. */
  predicate KnowsProxies(m: Mesh) {
    forall ip :: ip in m ==> ToU64(m[ip].pid) == m[ip].conf.proxyPid
  }

  /** Who connects: an application, a proxy on behalf of one of its pod, or a proxy that was told where to. */
  datatype Stage = App | Sender(original: Dest) | Receiver

  /**
    One connect(): the pod it is made in, who makes it and where it wants to go. Should it arrive at an internal
    listener, told is what that proxy is told about its original destination, None when it is told nothing.
   */
  datatype Hop = Hop(at: U32, stage: Stage, pid: I32, dst: Dest, told: Option<Dest>)

  ghost predicate IsRedirected(m: Mesh, h: Hop)
    requires Valid(m) && h.at in m
  {
    Redirects(m[h.at].conf, Attempt(AF_INET, IPPROTO_TCP, h.dst, h.pid, 0))
  }

  // ---- Listeners ----

  datatype Listener = Internal | External

  /** A listener bound to an address accepts connections to it; one bound to 0.0.0.0 accepts all. */
  predicate Accepts(bound: U32, ip: U32) {
    bound == 0 || bound == if ip == 0 then LOCALHOST else ip
  }

  /** The listener of a pod's proxy at a destination in that pod. */
  function Listens(pod: Pod, d: Dest): Option<Listener> {
    if d.port == CLUSTER_PORT || (d.port == CLUSTER_TLS_PORT && pod.tls) then Some(External)
    else if d.port == pod.conf.proxyPort && Accepts(pod.conf.proxyAddr, d.ip) then Some(Internal)
    else None
  }

  /** The address of the pod, or of the host outside the mesh, that an address leads to from a pod. */
  function Where(at: U32, ip: U32): U32 {
    if IsLocal(ip) then at else ip
  }

  function Arrives(m: Mesh, h: Hop): Option<Listener> {
    var q := Where(h.at, h.dst.ip);
    if q in m then Listens(m[q], h.dst) else None
  }

  /** The pod at whose internal listener a connect arrives: its own when it is redirected. */
  ghost function InternalAt(m: Mesh, h: Hop): (p: Option<U32>)
    requires Valid(m) && h.at in m
    ensures p.Some? ==> p.value in m
  {
    if IsRedirected(m, h) then Some(h.at)
    else if Arrives(m, h) == Some(Internal) then Some(Where(h.at, h.dst.ip))
    else None
  }

  // ---- Chains ----

  /** The connect of the proxy of a pod on behalf of a connection that it was told was going to d. */
  function ToProxy(m: Mesh, at: U32, d: Dest, told: Option<Dest>): Hop
    requires at in m
  {
    Hop(at, Sender(d), m[at].pid, Dest(d.ip, m[at].ClusterPort()), told)
  }

  /** The connect of the proxy of a pod that read d from a tunnel. */
  function FromProxy(m: Mesh, at: U32, d: Dest, told: Option<Dest>): Hop
    requires at in m
  {
    Hop(at, Receiver, m[at].pid, d, told)
  }

  /**
    h can set off n. A proxy that gets a connection on its internal listener connects to the cluster port of the host
    it is told, or not at all. At an external listener a sending proxy names the destination it was told, and anybody
    else whatever the application writes; the proxy connects there unless that is its own internal address. All other
    connects reach an application. What n in its turn is told is left open.
   */
  ghost predicate SetsOff(m: Mesh, h: Hop, n: Hop)
    requires Valid(m) && h.at in m
  {
    match InternalAt(m, h)
    case Some(p) => h.told.Some? && n == ToProxy(m, p, h.told.value, n.told)
    case None =>
      var q := Where(h.at, h.dst.ip);
      && Arrives(m, h) == Some(External)
      && n == FromProxy(m, q, n.dst, n.told)
      && n.dst != m[q].Own()
      && (h.stage.Sender? ==> n.dst == h.stage.original)
  }

  ghost predicate Chain(m: Mesh, hops: seq<Hop>)
    requires Valid(m)
  {
    && hops != []
    && (forall i :: 0 <= i < |hops| ==> hops[i].at in m)
    && (forall i :: 0 <= i < |hops| - 1 ==> SetsOff(m, hops[i], hops[i + 1]))
  }

  lemma ChainTail(m: Mesh, hops: seq<Hop>)
    requires Valid(m) && Chain(m, hops) && |hops| > 1
    ensures SetsOff(m, hops[0], hops[1])
    ensures Chain(m, hops[1..])
  {
    forall i | 0 <= i < |hops[1..]| - 1
      ensures SetsOff(m, hops[1..][i], hops[1..][i + 1])
    {
      assert SetsOff(m, hops[i + 1], hops[i + 1 + 1]);
    }
  }

  lemma ChainCons(m: Mesh, h: Hop, hops: seq<Hop>)
    requires Valid(m) && h.at in m && Chain(m, hops) && SetsOff(m, h, hops[0])
    ensures Chain(m, [h] + hops)
  {
    var all := [h] + hops;
    forall i | 0 <= i < |all| - 1
      ensures SetsOff(m, all[i], all[i + 1])
    {
      if i > 0 {
        assert all[i] == hops[i - 1] && all[i + 1] == hops[i - 1 + 1];
      }
    }
  }

  // ---- Proxies are never redirected ----

  lemma ProxyHopIsDirect(m: Mesh, h: Hop, n: Hop)
    requires Valid(m) && KnowsProxies(m) && h.at in m && SetsOff(m, h, n)
    ensures n.at in m && !n.stage.App? && !IsRedirected(m, n)
  {
  }

  /** Only the application's own connect is ever redirected. */
  lemma OnlyFirstIsRedirected(m: Mesh, hops: seq<Hop>, i: nat)
    requires Valid(m) && KnowsProxies(m) && Chain(m, hops) && 1 <= i < |hops|
    ensures !IsRedirected(m, hops[i])
  {
    assert SetsOff(m, hops[i - 1], hops[i - 1 + 1]);
    ProxyHopIsDirect(m, hops[i - 1], hops[i]);
  }

  // ---- When the chain ends ----

  /**
    The proxy of pod p, told d, gets as far as having the proxy of d's pod connect to d: that pod is in the mesh, it
    has a TLS listener if p's proxy uses TLS, and d is not the address its proxy refuses.
   */
  predicate Tunnels(m: Mesh, p: U32, d: Dest)
    requires p in m
  {
    var q := Where(p, d.ip);
    q in m && (m[p].tls ==> m[q].tls) && d != m[q].Own()
  }

  /** The connect ends up at a proxy's listener: directly, or because its proxy is told a destination that does. */
  ghost predicate ReachesProxy(m: Mesh, h: Hop)
    requires Valid(m) && h.at in m
  {
    match InternalAt(m, h)
    case Some(p) =>
      h.told.Some? && Tunnels(m, p, h.told.value) && Listens(m[Where(p, h.told.value.ip)], h.told.value).Some?
    case None => Arrives(m, h).Some?
  }

  lemma NearHop(m: Mesh, p: U32, d: Dest, told: Option<Dest>)
    requires Valid(m) && KnowsProxies(m) && p in m
    ensures var near := ToProxy(m, p, d, told);
            forall n :: SetsOff(m, near, n) <==> Tunnels(m, p, d) && n == FromProxy(m, Where(p, d.ip), d, n.told)
  {
    var near := ToProxy(m, p, d, told);
    assert !IsRedirected(m, near);
    assert Where(near.at, near.dst.ip) == Where(p, d.ip);
  }

  lemma FarHop(m: Mesh, p: U32, d: Dest, told: Option<Dest>)
    requires Valid(m) && KnowsProxies(m) && p in m && Where(p, d.ip) in m
    ensures var q := Where(p, d.ip);
            var far := FromProxy(m, q, d, told);
            && !IsRedirected(m, far)
            && Where(q, d.ip) == q
            && Arrives(m, far) == Listens(m[q], d)
  {
  }

  /** A chain that misses the listeners: the application's connect, the near proxy's, the far one's to what was told. */
  lemma ShortChain(m: Mesh, h: Hop, hops: seq<Hop>)
    requires Valid(m) && KnowsProxies(m) && h.at in m && !ReachesProxy(m, h)
    requires Chain(m, hops) && hops[0] == h
    ensures |hops| <= 3
    ensures |hops| > 1 ==>
              var p := InternalAt(m, h);
              && p.Some? && h.told.Some?
              && hops[1] == ToProxy(m, p.value, h.told.value, hops[1].told)
              && (|hops| > 2 ==>
                    && Tunnels(m, p.value, h.told.value)
                    && hops[2] == FromProxy(m, Where(p.value, h.told.value.ip), h.told.value, hops[2].told))
  {
    if |hops| > 1 {
      ChainTail(m, hops);
      var p, d := InternalAt(m, h).value, h.told.value;
      NearHop(m, p, d, hops[1].told);
      if |hops| > 2 {
        ChainTail(m, hops[1..]);
        FarHop(m, p, d, hops[2].told);
        if |hops| > 3 {
          ChainTail(m, hops[1..][1..]);
        }
      }
    }
  }

  // ---- When it need not end ----

  /** The connect ends up at an external listener, whose proxy connects to whatever the application writes. */
  ghost predicate ReachesExternal(m: Mesh, h: Hop)
    requires Valid(m) && h.at in m
  {
    match InternalAt(m, h)
    case Some(p) =>
      && h.told.Some? && Tunnels(m, p, h.told.value)
      && Listens(m[Where(p, h.told.value.ip)], h.told.value) == Some(External)
    case None => Arrives(m, h) == Some(External)
  }

  /** The proxy of a pod connects to its own cluster port, as often as it is told to. */
  function SelfHop(m: Mesh, at: U32): Hop
    requires at in m
  {
    FromProxy(m, at, Dest(at, CLUSTER_PORT), None)
  }

  lemma SelfChain(m: Mesh, at: U32, n: nat) returns (hops: seq<Hop>)
    requires Valid(m) && KnowsProxies(m) && at in m && n >= 1
    ensures |hops| == n && hops[0] == SelfHop(m, at) && Chain(m, hops)
  {
    hops := seq(n, _ => SelfHop(m, at));
    assert SetsOff(m, SelfHop(m, at), SelfHop(m, at));
  }

  // Whoever reaches an external listener with bytes of its own can keep the proxy connecting.
  lemma LongChain(m: Mesh, h: Hop, n: nat) returns (hops: seq<Hop>)
    requires Valid(m) && KnowsProxies(m) && h.at in m && !h.stage.Sender? && n >= 1
    requires InternalAt(m, h).None? && Arrives(m, h) == Some(External)
    ensures |hops| >= n && hops[0] == h && Chain(m, hops)
  {
    var q := Where(h.at, h.dst.ip);
    hops := SelfChain(m, q, n);
    assert SetsOff(m, h, SelfHop(m, q));
    ChainCons(m, h, hops);
    hops := [h] + hops;
  }

  // The first three hops of a redirected or direct connection to an internal listener, and what follows them.
  lemma ChainThroughProxies(m: Mesh, h: Hop, hops: seq<Hop>)
    requires Valid(m) && KnowsProxies(m) && h.at in m && InternalAt(m, h).Some? && h.told.Some?
    requires Tunnels(m, InternalAt(m, h).value, h.told.value) && Chain(m, hops)
    requires hops[0] == FromProxy(m, Where(InternalAt(m, h).value, h.told.value.ip), h.told.value, hops[0].told)
    ensures Chain(m, [h] + ([ToProxy(m, InternalAt(m, h).value, h.told.value, None)] + hops))
  {
    var near := ToProxy(m, InternalAt(m, h).value, h.told.value, None);
    NearHop(m, InternalAt(m, h).value, h.told.value, None);
    ChainCons(m, near, hops);
    ChainCons(m, h, [near] + hops);
  }

  /** A connect that ends up at an external listener can set off chains of any length. */
  lemma EndlessChain(m: Mesh, h: Hop, n: nat) returns (hops: seq<Hop>)
    requires Valid(m) && KnowsProxies(m) && h.at in m && h.stage.App? && ReachesExternal(m, h) && n >= 1
    ensures |hops| >= n && hops[0] == h && Chain(m, hops)
  {
    match InternalAt(m, h) {
      case Some(p) =>
        var d := h.told.value;
        FarHop(m, p, d, None);
        hops := LongChain(m, FromProxy(m, Where(p, d.ip), d, None), n);
        ChainThroughProxies(m, h, hops);
        hops := [h] + ([ToProxy(m, p, d, None)] + hops);
      case None =>
        hops := LongChain(m, h, n);
    }
  }

  // At an internal listener the far proxy's connect sets off one more if anything is told about it.
  lemma FourHops(m: Mesh, h: Hop) returns (hops: seq<Hop>)
    requires Valid(m) && KnowsProxies(m) && h.at in m && ReachesProxy(m, h) && !ReachesExternal(m, h)
    ensures |hops| == 4 && hops[0] == h && Chain(m, hops)
  {
    var p, d := InternalAt(m, h).value, h.told.value;
    var q := Where(p, d.ip);
    var far := FromProxy(m, q, d, Some(d));
    FarHop(m, p, d, Some(d));
    assert InternalAt(m, far) == Some(q);
    var last := ToProxy(m, q, d, None);
    assert SetsOff(m, far, last);
    ChainCons(m, far, [last]);
    hops := [far] + [last];
    ChainThroughProxies(m, h, hops);
    hops := [h] + ([ToProxy(m, p, d, None)] + hops);
  }

  /**
    No proxy loop, exactly: when every proxy is recognised, an application connect sets off at most two more if and
    only if it does not end up at a proxy's listener, neither by its own destination nor by the one its proxy is told.
    None of the two is redirected, and the last goes to the destination that was told.
   */
  lemma NoProxyLoop(m: Mesh, h: Hop)
    requires Valid(m) && KnowsProxies(m) && h.at in m && h.stage.App?
    ensures (forall hops: seq<Hop> :: Chain(m, hops) && hops[0] == h ==> |hops| <= 3) <==> !ReachesProxy(m, h)
    ensures forall hops: seq<Hop>, i :: Chain(m, hops) && hops[0] == h && 1 <= i < |hops| ==> !IsRedirected(m, hops[i])
    ensures !ReachesProxy(m, h) ==>
              forall hops: seq<Hop> :: Chain(m, hops) && hops[0] == h && |hops| == 3 ==>
                hops[2].stage.Receiver? && h.told == Some(hops[2].dst)
  {
    if ReachesProxy(m, h) {
      if ReachesExternal(m, h) {
        var hops := EndlessChain(m, h, 4);
      } else {
        var hops := FourHops(m, h);
      }
    } else {
      forall hops: seq<Hop> | Chain(m, hops) && hops[0] == h
        ensures |hops| <= 3 && (|hops| == 3 ==> hops[2].stage.Receiver? && h.told == Some(hops[2].dst))
      {
        ShortChain(m, h, hops);
      }
    }
    forall hops: seq<Hop>, i | Chain(m, hops) && hops[0] == h && 1 <= i < |hops|
      ensures !IsRedirected(m, hops[i])
    {
      OnlyFirstIsRedirected(m, hops, i);
    }
  }

  // ---- What the internal listener is told ----

  /** What a proxy is told of a connection from a port: what the tables lead to, or else the kernel's own answer. */
  function Told(t: Tables, port: U16, kernel: Option<Dest>): Option<Dest> {
    match Lookup(t, port)
    case Some(d) => Some(d)
    case None => kernel
  }

  /** The connect is that of step j of a run of its pod's hooks, which then establish it and tell its proxy. */
  ghost predicate IsConnection(m: Mesh, h: Hop, es: H.Run, j: nat, i: nat, port: U16, kernel: Option<Dest>)
    requires Valid(m) && h.at in m
  {
    var conf := m[h.at].conf;
    && H.Connection(conf, es, j, i, port)
    && es[j].attempt.dst == h.dst && es[j].attempt.pid == h.pid
    && h.told == Told(H.After(conf, es), port, kernel)
  }

  /**
    A redirected connect that recovers its own destination ends after three connects, the last to the destination the
    application asked for, if and only if that destination is not a listener behind which the two proxies can meet.
    It does recover it when the port leads to a connection whose truncated cookie last went there.
   */
  lemma RecoveredConnectsEnd(m: Mesh, h: Hop, es: H.Run, j: nat, i: nat, port: U16, kernel: Option<Dest>)
    requires Valid(m) && KnowsProxies(m) && h.at in m && h.stage.App?
    requires IsConnection(m, h, es, j, i, port, kernel)
    requires exists k: nat :: k < |es| && H.Told(m[h.at].conf, es, k, port, h.dst)
    ensures IsRedirected(m, h) && h.told == Some(h.dst)
    ensures var q := Where(h.at, h.dst.ip);
            (forall hops: seq<Hop> :: Chain(m, hops) && hops[0] == h ==> |hops| <= 3) <==>
              !(Tunnels(m, h.at, h.dst) && Listens(m[q], h.dst).Some?)
    ensures !ReachesProxy(m, h) ==>
              forall hops: seq<Hop> :: Chain(m, hops) && hops[0] == h && |hops| == 3 ==> hops[2].dst == h.dst
  {
    H.RecoversOwnDestination(m[h.at].conf, es, j, i, port);
    assert Redirects(m[h.at].conf, es[j].attempt);
    NoProxyLoop(m, h);
  }

  /** The tables never tell of a destination that no redirected connect() of the run wanted. */
  lemma ToldWasRedirected(conf: Config, es: H.Run, port: U16) returns (j: nat)
    requires conf.Valid() && Lookup(H.After(conf, es), port).Some?
    ensures j < |es| && es[j].Redirected(conf) && Lookup(H.After(conf, es), port) == Some(es[j].attempt.dst)
    ensures var d := Lookup(H.After(conf, es), port).value;
            InBlock(d.ip, conf.network, conf.mask) && d.port !in EXEMPT_PORTS
  {
    var i := H.DeciderOfLookup(conf, es, port);
    H.LookupOfDecider(conf, es, i, port);
    j := LastToStep(conf, es, Key(es[i].Cookie()));
  }

  lemma {:induction false} LastToStep(conf: Config, es: H.Run, k: U32) returns (j: nat)
    requires conf.Valid() && H.LastTo(conf, es, k).Some?
    ensures j < |es| && es[j].Redirected(conf) && H.LastTo(conf, es, k) == Some(es[j].attempt.dst)
  {
    if H.Last(es).Redirected(conf) && Key(H.Last(es).Cookie()) == k {
      j := |es| - 1;
    } else {
      j := LastToStep(conf, H.Front(es), k);
    }
  }

  /**
    Where recovery fails, an ordinary destination does not help: a second socket whose cookie agrees modulo 2^32 and
    that wants another pod's TLS port makes the first one's proxy end up there, and chains of any length can follow.
   */
  lemma CollidingCookieReachesListener(m: Mesh, h: Hop, first: Attempt, second: Attempt, localPort: U32,
                                       kernel: Option<Dest>, n: nat) returns (hops: seq<Hop>)
    requires Valid(m) && KnowsProxies(m) && h.at in m && h.stage.App? && n >= 1
    requires Redirects(m[h.at].conf, first) && first.dst == h.dst && first.pid == h.pid
    requires Redirects(m[h.at].conf, second)
    requires second.cookie % 0x1_0000_0000 == first.cookie % 0x1_0000_0000
    requires second.dst.port == CLUSTER_TLS_PORT && Where(h.at, second.dst.ip) in m
    requires m[h.at].tls && m[Where(h.at, second.dst.ip)].tls
    requires var es := [H.Connect(first),
                        H.SockOps(AF_INET, BPF_SOCK_OPS_ACTIVE_ESTABLISHED_CB, localPort, first.cookie),
                        H.Connect(second)];
             h.told == Told(H.After(m[h.at].conf, es), Low16(localPort), kernel)
    ensures IsRedirected(m, h) && h.told == Some(second.dst)
    ensures |hops| >= n && hops[0] == h && Chain(m, hops)
  {
    H.CollidingCookiesShareDestination(m[h.at].conf, first, second, localPort);
    hops := EndlessChain(m, h, n);
  }

  // ---- Ports ----

  /** The listeners of a pod with the default settings, by number. */
  lemma DefaultListeners(pod: Pod, at: U32, d: Dest)
    requires pod.conf.proxyAddr == 127 * 0x100_0000 + 1 && pod.conf.proxyPort == 18000
    ensures Listens(pod, d) == Some(External) <==> d.port == 18001 || (d.port == 18443 && pod.tls)
    ensures Listens(pod, d) == Some(Internal) <==> d.port == 18000 && (d.ip == 127 * 0x100_0000 + 1 || d.ip == 0)
    ensures d.ip == 0 || 127 * 0x100_0000 <= d.ip < 128 * 0x100_0000 <==> IsLocal(d.ip)
    ensures Where(at, d.ip) == if IsLocal(d.ip) then at else d.ip
  {
  }

  predicate Ordinary(m: Mesh, at: U32, d: Dest) {
    var q := Where(at, d.ip);
    d.port !in {CLUSTER_PORT, CLUSTER_TLS_PORT} && (q in m ==> d.port != m[q].conf.proxyPort)
  }

  // With the ports of the proxies out of the way, of the destination and of what is told, every chain ends.
  lemma OrdinaryPortsEnd(m: Mesh, h: Hop)
    requires Valid(m) && h.at in m && Ordinary(m, h.at, h.dst)
    requires IsRedirected(m, h) && h.told.Some? ==> Ordinary(m, h.at, h.told.value)
    ensures !ReachesProxy(m, h)
  {
  }

  // The plain cluster port of a pod is never redirected and always reaches its proxy.
  lemma ClusterPortReachesProxy(m: Mesh, h: Hop)
    requires Valid(m) && h.at in m && Where(h.at, h.dst.ip) in m && h.dst.port == CLUSTER_PORT
    ensures !IsRedirected(m, h) && ReachesExternal(m, h)
  {
  }

  // The TLS port is let through by the pid test alone.
  lemma OnlyThePidExemptsTls(c: Config, ip: U32, pid: I32, cookie: U64)
    requires c.Valid()
    ensures !Redirects(c, Attempt(AF_INET, IPPROTO_TCP, Dest(ip, CLUSTER_PORT), pid, cookie))
    ensures Redirects(c, Attempt(AF_INET, IPPROTO_TCP, Dest(ip, CLUSTER_TLS_PORT), pid, cookie)) <==>
              InBlock(ip, c.network, c.mask) && ToU64(pid) != c.proxyPid
  {
  }

  // Recovered or direct, a connect to the TLS port of a pod reaches its proxy when both pods have certificates.
  lemma TlsPortReachesProxy(m: Mesh, h: Hop)
    requires Valid(m) && h.at in m && Where(h.at, h.dst.ip) in m && h.dst.port == CLUSTER_TLS_PORT
    requires m[h.at].tls && m[Where(h.at, h.dst.ip)].tls
    requires IsRedirected(m, h) ==> h.told == Some(h.dst)
    ensures ReachesExternal(m, h)
  {
  }

  // ---- A proxy that the hooks do not recognise ----

  /** The tables after a number of turns of one connect() to dst, each with its own cookie and local port. */
  function AfterTurns(dst: Dest, cookies: seq<U64>, ports: seq<U16>): Tables
    requires |cookies| == |ports|
  {
    if cookies == [] then EMPTY
    else
      var n := |cookies| - 1;
      Index(Remember(AfterTurns(dst, cookies[..n], ports[..n]), cookies[n], dst), cookies[n], ports[n])
  }

  /** Those turns as a run of the hooks. */
  function TurnRun(a: Attempt, cookies: seq<U64>, ports: seq<U16>): H.Run
    requires |cookies| == |ports|
  {
    if cookies == [] then []
    else
      var n := |cookies| - 1;
      TurnRun(a, cookies[..n], ports[..n]) + [H.Connect(a.(cookie := cookies[n]))]
      + [H.SockOps(AF_INET, BPF_SOCK_OPS_ACTIVE_ESTABLISHED_CB, ports[n], cookies[n])]
  }

  lemma {:induction false} TurnsAreRun(conf: Config, a: Attempt, cookies: seq<U64>, ports: seq<U16>)
    requires conf.Valid() && Redirects(conf, a) && |cookies| == |ports|
    ensures H.After(conf, TurnRun(a, cookies, ports)) == AfterTurns(a.dst, cookies, ports)
  {
    if cookies != [] {
      var n := |cookies| - 1;
      TurnsAreRun(conf, a, cookies[..n], ports[..n]);
      var connect := H.Connect(a.(cookie := cookies[n]));
      var established := H.SockOps(AF_INET, BPF_SOCK_OPS_ACTIVE_ESTABLISHED_CB, ports[n], cookies[n]);
      H.AfterOneMore(conf, TurnRun(a, cookies[..n], ports[..n]), connect);
      H.AfterOneMore(conf, TurnRun(a, cookies[..n], ports[..n]) + [connect], established);
      PortIsItself(ports[n]);
    }
  }

  lemma PortIsItself(port: U16)
    ensures Low16(port) == port
  {
  }

  ghost predicate Fresh(cookies: seq<U64>, ports: seq<U16>)
    requires |cookies| == |ports|
  {
    && (forall i, j :: 0 <= i < j < |cookies| ==> cookies[i] % 0x1_0000_0000 != cookies[j] % 0x1_0000_0000)
    && (forall i, j :: 0 <= i < j < |ports| ==> ports[i] != ports[j])
  }

  /** The tables hold no keys and ports but those of the turns. */
  ghost predicate OnlyTurns(t: Tables, cookies: seq<U64>, ports: seq<U16>) {
    && (forall k :: k in t.socks ==> exists i :: 0 <= i < |cookies| && Key(cookies[i]) == k)
    && (forall p :: p in t.ports ==> p in ports)
  }

  lemma OneTurn(t: Tables, cookie: U64, port: U16, dst: Dest)
    requires Key(cookie) !in t.socks && port !in t.ports
    requires |t.socks| == |t.ports| <= MAX_CONNECTIONS
    ensures var t' := Index(Remember(t, cookie, dst), cookie, port);
            && t'.socks.Keys <= t.socks.Keys + {Key(cookie)} && t'.ports.Keys <= t.ports.Keys + {port}
            && |t'.socks| == |t'.ports| == (if |t.socks| < MAX_CONNECTIONS then |t.socks| + 1 else MAX_CONNECTIONS)
            && Lookup(t', port) == if |t.socks| < MAX_CONNECTIONS then Some(dst) else None
  {
  }

  lemma {:induction false} TurnsStayInside(dst: Dest, cookies: seq<U64>, ports: seq<U16>)
    requires |cookies| == |ports|
    ensures OnlyTurns(AfterTurns(dst, cookies, ports), cookies, ports)
  {
    if cookies != [] {
      var n := |cookies| - 1;
      var t, t' := AfterTurns(dst, cookies[..n], ports[..n]), AfterTurns(dst, cookies, ports);
      TurnsStayInside(dst, cookies[..n], ports[..n]);
      forall k | k in t'.socks
        ensures exists i :: 0 <= i < |cookies| && Key(cookies[i]) == k
      {
        if k in t.socks {
          var i :| 0 <= i < n && Key(cookies[..n][i]) == k;
          assert Key(cookies[i]) == k;
        } else {
          assert Key(cookies[n]) == k;
        }
      }
    }
  }

  lemma NextTurnIsFresh(dst: Dest, cookies: seq<U64>, ports: seq<U16>)
    requires cookies != [] && |cookies| == |ports| && Fresh(cookies, ports)
    ensures var n := |cookies| - 1;
            var t := AfterTurns(dst, cookies[..n], ports[..n]);
            Fresh(cookies[..n], ports[..n]) && Key(cookies[n]) !in t.socks && ports[n] !in t.ports
  {
    TurnsStayInside(dst, cookies[..|cookies| - 1], ports[..|ports| - 1]);
  }

  lemma {:induction false} TurnsFillTables(dst: Dest, cookies: seq<U64>, ports: seq<U16>)
    requires |cookies| == |ports| && Fresh(cookies, ports)
    ensures var t := AfterTurns(dst, cookies, ports);
            |t.socks| == |t.ports| == (if |cookies| <= MAX_CONNECTIONS then |cookies| else MAX_CONNECTIONS)
  {
    if cookies != [] {
      var n := |cookies| - 1;
      NextTurnIsFresh(dst, cookies, ports);
      TurnsFillTables(dst, cookies[..n], ports[..n]);
      OneTurn(AfterTurns(dst, cookies[..n], ports[..n]), cookies[n], ports[n], dst);
    }
  }

  lemma LastTurnIsTold(dst: Dest, cookies: seq<U64>, ports: seq<U16>)
    requires cookies != [] && |cookies| == |ports| && Fresh(cookies, ports)
    ensures Lookup(AfterTurns(dst, cookies, ports), ports[|ports| - 1]) ==
            if |cookies| <= MAX_CONNECTIONS then Some(dst) else None
  {
    var n := |cookies| - 1;
    NextTurnIsFresh(dst, cookies, ports);
    TurnsFillTables(dst, cookies[..n], ports[..n]);
    OneTurn(AfterTurns(dst, cookies[..n], ports[..n]), cookies[n], ports[n], dst);
  }

  /**
    With certificates and a pid the hooks do not recognise, a proxy told of a pod's TLS port connects there, is
    redirected to itself, and connects there again whenever it is told of its own connect. With a new cookie and
    local port at every turn, the tables tell it for exactly 20000 turns.
   */
  lemma UnrecognisedProxyLoops(m: Mesh, at: U32, ip: U32, told: Option<Dest>, cookies: seq<U64>, ports: seq<U16>)
    requires Valid(m) && at in m && m[at].tls && ToU64(m[at].pid) != m[at].conf.proxyPid
    requires InBlock(ip, m[at].conf.network, m[at].conf.mask)
    requires cookies != [] && |cookies| == |ports| && Fresh(cookies, ports)
    ensures var dst := Dest(ip, CLUSTER_TLS_PORT);
            var h := ToProxy(m, at, dst, told);
            forall n :: SetsOff(m, h, n) <==> told.Some? && n == ToProxy(m, at, told.value, n.told)
    ensures var dst := Dest(ip, CLUSTER_TLS_PORT);
            var turn := Attempt(AF_INET, IPPROTO_TCP, dst, m[at].pid, 0);
            Lookup(H.After(m[at].conf, TurnRun(turn, cookies, ports)), ports[|ports| - 1]) ==
            if |cookies| <= 20000 then Some(dst) else None
  {
    var dst := Dest(ip, CLUSTER_TLS_PORT);
    assert IsRedirected(m, ToProxy(m, at, dst, told));
    TurnsAreRun(m[at].conf, Attempt(AF_INET, IPPROTO_TCP, dst, m[at].pid, 0), cookies, ports);
    LastTurnIsTold(dst, cookies, ports);
  }
}
