/**
  Whole runs of the kernel hooks. The two tables are compared with the plain history of the run:
  which redirected connection was last established on a port, and where it was going.
 */
module History {
  import opened Words
  import opened Wrappers
  import opened Mirrors

  datatype Event =
    | Connect(attempt: Attempt)
    | SockOps(family: U32, op: U32, localPort: U32, sockCookie: U64)
  {
    function Cookie(): U64 {
      match this
      case Connect(a) => a.cookie
      case SockOps(_, _, _, c) => c
    }

    /** An active IPv4 connection has just been established. */
    predicate Establishes() {
      SockOps? && family == AF_INET && op == BPF_SOCK_OPS_ACTIVE_ESTABLISHED_CB
    }

    ghost predicate Redirected(conf: Config)
      requires conf.Valid()
    {
      Connect? && Redirects(conf, attempt)
    }
  }

  type Run = seq<Event>

  // ---- The tables after a run ----

  ghost function Step(conf: Config, t: Tables, e: Event): Tables
    requires conf.Valid()
  {
    if e.Redirected(conf) then Remember(t, e.attempt.cookie, e.attempt.dst)
    else if e.Establishes() then Index(t, e.sockCookie, Low16(e.localPort))
    else t
  }

  ghost function From(conf: Config, t: Tables, es: Run): Tables
    requires conf.Valid()
  {
    if es == [] then t else Step(conf, From(conf, t, Front(es)), Last(es))
  }

  ghost function After(conf: Config, es: Run): Tables
    requires conf.Valid()
  {
    From(conf, EMPTY, es)
  }

  function Front(es: Run): (front: Run)
    requires es != []
    ensures |front| == |es| - 1
  {
    es[..|es| - 1]
  }

  function Last(es: Run): Event
    requires es != []
  {
    es[|es| - 1]
  }

  // ---- The history of a run ----

  /** Where the latest redirected connect() with a truncated cookie was going. */
  ghost function LastTo(conf: Config, es: Run, k: U32): Option<Dest>
    requires conf.Valid()
  {
    if es == [] then None
    else if Last(es).Redirected(conf) && Key(Last(es).Cookie()) == k then Some(Last(es).attempt.dst)
    else LastTo(conf, Front(es), k)
  }

  /** The truncated cookies of all redirected connects. */
  ghost function Keys(conf: Config, es: Run): (ks: set<U32>)
    requires conf.Valid()
  {
    if es == [] then {}
    else Keys(conf, Front(es)) + if Last(es).Redirected(conf) then {Key(Last(es).Cookie())} else {}
  }

  /** The first MAX_CONNECTIONS of those keys, in order of appearance. */
  ghost function Admitted(conf: Config, es: Run): (ks: set<U32>)
    requires conf.Valid()
    ensures |ks| <= MAX_CONNECTIONS
  {
    if es == [] then {}
    else
      var ks := Admitted(conf, Front(es));
      if Last(es).Redirected(conf) && Key(Last(es).Cookie()) !in ks && |ks| < MAX_CONNECTIONS
      then ks + {Key(Last(es).Cookie())}
      else ks
  }

  /** At step i a connection whose truncated cookie had been admitted is established on the port. */
  ghost predicate TrackedOn(conf: Config, es: Run, i: nat, port: U16)
    requires conf.Valid() && i < |es|
  {
    && es[i].Establishes()
    && Low16(es[i].localPort) == port
    && Key(es[i].sockCookie) in Admitted(conf, es[..i])
  }

  /** The latest tracked connection established on a port. */
  ghost function LastTracked(conf: Config, es: Run, port: U16): Option<U64>
    requires conf.Valid()
  {
    if es == [] then None
    else if TrackedOn(conf, es, |es| - 1, port) then Some(Last(es).Cookie())
    else LastTracked(conf, Front(es), port)
  }

  /** The first MAX_CONNECTIONS ports on which tracked connections were established. */
  ghost function AdmittedPorts(conf: Config, es: Run): (ps: set<U16>)
    requires conf.Valid()
    ensures |ps| <= MAX_CONNECTIONS
  {
    if es == [] then {}
    else
      var ps := AdmittedPorts(conf, Front(es));
      if Last(es).Establishes() && TrackedOn(conf, es, |es| - 1, Low16(Last(es).localPort))
         && Low16(Last(es).localPort) !in ps && |ps| < MAX_CONNECTIONS
      then ps + {Low16(Last(es).localPort)}
      else ps
  }

  /** What the two tables should make of a port. */
  ghost function TrackedAnswer(conf: Config, es: Run, port: U16): Option<Dest>
    requires conf.Valid()
  {
    match LastTracked(conf, es, port)
    case Some(c) => if port in AdmittedPorts(conf, es) then LastTo(conf, es, Key(c)) else None
    case None => None
  }

  // ---- The tables are the history, in every run ----

  lemma {:induction false} SocksKeys(conf: Config, es: Run)
    requires conf.Valid()
    ensures After(conf, es).socks.Keys == Admitted(conf, es)
  {
    if es != [] {
      SocksKeys(conf, Front(es));
      assert |After(conf, Front(es)).socks.Keys| == |After(conf, Front(es)).socks|;
    }
  }

  // map_socks holds exactly the admitted keys, each with the latest destination.
  lemma {:induction false} SocksMatchHistory(conf: Config, es: Run, k: U32)
    requires conf.Valid()
    ensures After(conf, es).socks.Keys == Admitted(conf, es)
    ensures k in Admitted(conf, es) ==>
              && LastTo(conf, es, k).Some?
              && After(conf, es).socks[k] == Socket(0, 0, LastTo(conf, es, k).value.ip, LastTo(conf, es, k).value.port)
  {
    SocksKeys(conf, es);
    if es != [] {
      SocksMatchHistory(conf, Front(es), k);
    }
  }

  lemma {:induction false} PortsKeys(conf: Config, es: Run)
    requires conf.Valid()
    ensures After(conf, es).ports.Keys == AdmittedPorts(conf, es)
  {
    if es != [] {
      PortsKeys(conf, Front(es));
      SocksKeys(conf, Front(es));
      assert |After(conf, Front(es)).ports.Keys| == |After(conf, Front(es)).ports|;
    }
  }

  // map_ports holds exactly the admitted ports, each with the latest tracked cookie.
  lemma {:induction false} PortsMatchHistory(conf: Config, es: Run, p: U16)
    requires conf.Valid()
    ensures After(conf, es).ports.Keys == AdmittedPorts(conf, es)
    ensures p in AdmittedPorts(conf, es) ==> LastTracked(conf, es, p) == Some(After(conf, es).ports[p])
  {
    PortsKeys(conf, es);
    if es != [] {
      PortsMatchHistory(conf, Front(es), p);
      SocksKeys(conf, Front(es));
    }
  }

  lemma {:induction false} LastTrackedIsAdmitted(conf: Config, es: Run, port: U16)
    requires conf.Valid() && LastTracked(conf, es, port).Some?
    ensures Key(LastTracked(conf, es, port).value) in Admitted(conf, es)
  {
    if !TrackedOn(conf, es, |es| - 1, port) {
      LastTrackedIsAdmitted(conf, Front(es), port);
    }
  }

  /** In every run, collisions and full tables included, the lookup is the history of what found room. */
  lemma LookupIsTrackedHistory(conf: Config, es: Run, port: U16)
    requires conf.Valid()
    ensures Lookup(After(conf, es), port) == TrackedAnswer(conf, es, port)
  {
    PortsMatchHistory(conf, es, port);
    SocksKeys(conf, es);
    if port in AdmittedPorts(conf, es) {
      LastTrackedIsAdmitted(conf, es, port);
      SocksMatchHistory(conf, es, Key(LastTracked(conf, es, port).value));
    }
  }

  // ---- Which connection a port leads to ----

  /** The port leads to the connection of step i: it was tracked, its port had room, and no later one took the port. */
  ghost predicate Decides(conf: Config, es: Run, i: nat, port: U16)
    requires conf.Valid() && i < |es|
  {
    && TrackedOn(conf, es, i, port)
    && port in AdmittedPorts(conf, es)
    && forall k :: i < k < |es| ==> !TrackedOn(conf, es, k, port)
  }

  lemma TrackedInFront(conf: Config, es: Run, i: nat, port: U16)
    requires conf.Valid() && i < |es| - 1
    ensures TrackedOn(conf, Front(es), i, port) <==> TrackedOn(conf, es, i, port)
  {
    assert Front(es)[..i] == es[..i] && Front(es)[i] == es[i];
  }

  lemma {:induction false} LastTrackedAt(conf: Config, es: Run, i: nat, port: U16)
    requires conf.Valid() && i < |es| && TrackedOn(conf, es, i, port)
    requires forall k :: i < k < |es| ==> !TrackedOn(conf, es, k, port)
    ensures LastTracked(conf, es, port) == Some(es[i].Cookie())
  {
    if i < |es| - 1 {
      TrackedInFront(conf, es, i, port);
      forall k | i < k < |es| - 1
        ensures !TrackedOn(conf, Front(es), k, port)
      {
        TrackedInFront(conf, es, k, port);
      }
      LastTrackedAt(conf, Front(es), i, port);
    }
  }

  lemma {:induction false} LastTrackedStep(conf: Config, es: Run, port: U16) returns (i: nat)
    requires conf.Valid() && LastTracked(conf, es, port).Some?
    ensures i < |es| && TrackedOn(conf, es, i, port)
    ensures forall k :: i < k < |es| ==> !TrackedOn(conf, es, k, port)
  {
    if TrackedOn(conf, es, |es| - 1, port) {
      i := |es| - 1;
    } else {
      i := LastTrackedStep(conf, Front(es), port);
      TrackedInFront(conf, es, i, port);
      forall k | i < k < |es|
        ensures !TrackedOn(conf, es, k, port)
      {
        if k < |es| - 1 {
          TrackedInFront(conf, es, k, port);
        }
      }
    }
  }

  lemma LookupOfDecider(conf: Config, es: Run, i: nat, port: U16)
    requires conf.Valid() && i < |es| && Decides(conf, es, i, port)
    ensures Lookup(After(conf, es), port) == LastTo(conf, es, Key(es[i].Cookie()))
  {
    LookupIsTrackedHistory(conf, es, port);
    LastTrackedAt(conf, es, i, port);
  }

  lemma DeciderOfLookup(conf: Config, es: Run, port: U16) returns (i: nat)
    requires conf.Valid() && Lookup(After(conf, es), port).Some?
    ensures i < |es| && Decides(conf, es, i, port)
  {
    LookupIsTrackedHistory(conf, es, port);
    i := LastTrackedStep(conf, es, port);
  }

  // ---- What a connection recovers ----

  /** At step j a socket is redirected, and at step i > j it is established on the port. */
  ghost predicate Connection(conf: Config, es: Run, j: nat, i: nat, port: U16)
    requires conf.Valid()
  {
    && j < i < |es|
    && es[j].Redirected(conf)
    && es[i].Establishes() && Low16(es[i].localPort) == port
    && es[i].Cookie() == es[j].Cookie()
  }

  /** The port leads to step i's connection, and the latest redirect with its truncated cookie went to dst. */
  ghost predicate Told(conf: Config, es: Run, i: nat, port: U16, dst: Dest)
    requires conf.Valid() && i < |es|
  {
    Decides(conf, es, i, port) && LastTo(conf, es, Key(es[i].Cookie())) == Some(dst)
  }

  /**
    Exactly when a connection recovers its own destination, in every run. The port must lead to a connection, itself
    or another, whose truncated cookie last went there. Unless another connection of the port was going to the same
    place, that means: its cookie was admitted, its port had room, no later tracked connection took the port, and
    the latest redirected connect() with its truncated cookie went to its destination.
   */
  lemma RecoversOwnDestination(conf: Config, es: Run, j: nat, i: nat, port: U16)
    requires conf.Valid() && Connection(conf, es, j, i, port)
    ensures var own := es[j].attempt.dst;
            Lookup(After(conf, es), port) == Some(own) <==> exists k: nat :: k < |es| && Told(conf, es, k, port, own)
    ensures var own := es[j].attempt.dst;
            (forall k: nat :: k < |es| && k != i ==> !Told(conf, es, k, port, own)) ==>
              (Lookup(After(conf, es), port) == Some(own) <==> Told(conf, es, i, port, own))
  {
    var own := es[j].attempt.dst;
    if Lookup(After(conf, es), port) == Some(own) {
      var k := DeciderOfLookup(conf, es, port);
      LookupOfDecider(conf, es, k, port);
      assert Told(conf, es, k, port, own);
    }
    if k: nat :| k < |es| && Told(conf, es, k, port, own) {
      LookupOfDecider(conf, es, k, port);
    }
  }

  lemma {:induction false} LastToSince(conf: Config, es: Run, j: nat)
    requires conf.Valid() && j < |es| && es[j].Redirected(conf)
    requires forall k :: j < k < |es| && es[k].Redirected(conf) && Key(es[k].Cookie()) == Key(es[j].Cookie()) ==>
               es[k].attempt.dst == es[j].attempt.dst
    ensures LastTo(conf, es, Key(es[j].Cookie())) == Some(es[j].attempt.dst)
  {
    if j < |es| - 1 {
      assert Front(es)[j] == es[j];
      LastToSince(conf, Front(es), j);
    }
  }

  /**
    A connection that was tracked and holds its port recovers its own destination if and only if the latest
    redirected connect() with its truncated cookie went there; so it does as long as none goes elsewhere.
   */
  lemma LiveConnectionRecoversDestination(conf: Config, es: Run, j: nat, i: nat, port: U16)
    requires conf.Valid() && Connection(conf, es, j, i, port) && Decides(conf, es, i, port)
    ensures Lookup(After(conf, es), port) == Some(es[j].attempt.dst) <==>
              LastTo(conf, es, Key(es[j].Cookie())) == Some(es[j].attempt.dst)
    ensures (forall k :: j < k < |es| && es[k].Redirected(conf) && Key(es[k].Cookie()) == Key(es[j].Cookie()) ==>
               es[k].attempt.dst == es[j].attempt.dst) ==>
              Lookup(After(conf, es), port) == Some(es[j].attempt.dst)
  {
    LookupOfDecider(conf, es, i, port);
    if forall k :: j < k < |es| && es[k].Redirected(conf) && Key(es[k].Cookie()) == Key(es[j].Cookie()) ==>
         es[k].attempt.dst == es[j].attempt.dst {
      LastToSince(conf, es, j);
    }
  }

  // ---- Coupled capacity ----

  /** No two connections whose cookies agree modulo 2^32 are established. */
  ghost predicate EstablishedOnce(es: Run) {
    forall i, j :: 0 <= i < j < |es| && es[i].Establishes() && es[j].Establishes() ==>
      es[i].Cookie() % 0x1_0000_0000 != es[j].Cookie() % 0x1_0000_0000
  }

  lemma FrontEstablishedOnce(es: Run)
    requires es != [] && EstablishedOnce(es)
    ensures EstablishedOnce(Front(es))
  {
    forall i, j | 0 <= i < j < |es| - 1 && Front(es)[i].Establishes() && Front(es)[j].Establishes()
      ensures Front(es)[i].Cookie() % 0x1_0000_0000 != Front(es)[j].Cookie() % 0x1_0000_0000
    {
      assert es[i] == Front(es)[i] && es[j] == Front(es)[j];
    }
  }

  ghost predicate EstablishedOn(es: Run, port: U16, c: U64) {
    exists i :: 0 <= i < |es| && es[i].Establishes() && Low16(es[i].localPort) == port && es[i].sockCookie == c
  }

  lemma OneKeyOnePort(es: Run, p: U16, c: U64, q: U16, d: U64)
    requires EstablishedOnce(es) && EstablishedOn(es, p, c) && EstablishedOn(es, q, d) && Key(c) == Key(d)
    ensures p == q
  {
    var i :| 0 <= i < |es| && es[i].Establishes() && Low16(es[i].localPort) == p && es[i].sockCookie == c;
    var j :| 0 <= j < |es| && es[j].Establishes() && Low16(es[j].localPort) == q && es[j].sockCookie == d;
    assert Key(es[i].Cookie()) == Key(es[j].Cookie());
  }

  /** Distinct ports hold distinct keys. */
  ghost predicate InjectiveKeys(ports: map<U16, U64>) {
    forall p, q :: p in ports && q in ports && Key(ports[p]) == Key(ports[q]) ==> p == q
  }

  // The pigeonhole principle for a map whose values have distinct keys in s.
  lemma {:induction false} InjectionSize(ports: map<U16, U64>, s: set<U32>)
    requires InjectiveKeys(ports)
    requires forall p :: p in ports ==> Key(ports[p]) in s
    ensures |ports| <= |s|
  {
    if ports != map[] {
      var p :| p in ports;
      var rest := ports - {p};
      InjectionSize(rest, s - {Key(ports[p])});
      assert |rest| == |ports| - 1 by {
        assert rest.Keys == ports.Keys - {p};
      }
    }
  }

  lemma {:induction false} LastTrackedWasEstablished(conf: Config, es: Run, port: U16)
    requires conf.Valid() && LastTracked(conf, es, port).Some?
    ensures EstablishedOn(es, port, LastTracked(conf, es, port).value)
  {
    var i := LastTrackedStep(conf, es, port);
    LastTrackedAt(conf, es, i, port);
    assert es[i].sockCookie == LastTracked(conf, es, port).value;
  }

  // Every port leads into map_socks, and distinct ports to distinct keys.
  lemma PortsAreInjective(conf: Config, es: Run)
    requires conf.Valid() && EstablishedOnce(es)
    ensures var t := After(conf, es);
            && InjectiveKeys(t.ports)
            && (forall p :: p in t.ports ==> Key(t.ports[p]) in t.socks && EstablishedOn(es, p, t.ports[p]))
  {
    var t := After(conf, es);
    PortsKeys(conf, es);
    SocksKeys(conf, es);
    forall p | p in t.ports
      ensures Key(t.ports[p]) in t.socks && EstablishedOn(es, p, t.ports[p])
    {
      PortsMatchHistory(conf, es, p);
      LastTrackedIsAdmitted(conf, es, p);
      LastTrackedWasEstablished(conf, es, p);
    }
    forall p, q | p in t.ports && q in t.ports && Key(t.ports[p]) == Key(t.ports[q])
      ensures p == q
    {
      OneKeyOnePort(es, p, t.ports[p], q, t.ports[q]);
    }
  }

  // A tracked connection that is being established for the first time finds room in map_ports.
  lemma RoomForPort(conf: Config, es: Run, port: U16)
    requires conf.Valid() && es != [] && EstablishedOnce(es) && TrackedOn(conf, es, |es| - 1, port)
    ensures |After(conf, Front(es)).ports| < MAX_CONNECTIONS
    ensures port in AdmittedPorts(conf, es)
  {
    var t, k := After(conf, Front(es)), Key(Last(es).sockCookie);
    FrontEstablishedOnce(es);
    PortsAreInjective(conf, Front(es));
    SocksKeys(conf, Front(es));
    PortsKeys(conf, Front(es));
    forall p | p in t.ports
      ensures Key(t.ports[p]) in t.socks.Keys - {k}
    {
      NotEstablishedBefore(es, p, t.ports[p]);
    }
    InjectionSize(t.ports, t.socks.Keys - {k});
    assert |t.ports.Keys| == |t.ports|;
  }

  lemma NotEstablishedBefore(es: Run, port: U16, c: U64)
    requires es != [] && EstablishedOnce(es) && Last(es).Establishes() && EstablishedOn(Front(es), port, c)
    ensures Key(c) != Key(Last(es).sockCookie)
  {
    var i :| 0 <= i < |Front(es)| && Front(es)[i].Establishes() && Low16(Front(es)[i].localPort) == port
             && Front(es)[i].sockCookie == c;
    assert es[i] == Front(es)[i];
    assert Key(es[i].Cookie()) != Key(es[|es| - 1].Cookie());
  }

  lemma {:induction false} TrackedPortIsAdmitted(conf: Config, es: Run, i: nat, port: U16)
    requires conf.Valid() && EstablishedOnce(es) && i < |es| && TrackedOn(conf, es, i, port)
    ensures port in AdmittedPorts(conf, es)
  {
    if i == |es| - 1 {
      RoomForPort(conf, es, port);
    } else {
      FrontEstablishedOnce(es);
      TrackedInFront(conf, es, i, port);
      TrackedPortIsAdmitted(conf, Front(es), i, port);
    }
  }

  /**
    While no two established connections share a truncated cookie, the second table never outgrows the first, so
    its update never fails for lack of room, even after the first is full.
   */
  lemma CoupledCapacity(conf: Config, es: Run)
    requires conf.Valid() && EstablishedOnce(es)
    ensures var t := After(conf, es);
            && InjectiveKeys(t.ports)
            && (forall p :: p in t.ports ==> Key(t.ports[p]) in t.socks)
            && |t.ports| <= |t.socks| <= 20000
    ensures forall i: nat, p :: i < |es| && TrackedOn(conf, es, i, p) ==> p in After(conf, es).ports
  {
    var t := After(conf, es);
    PortsAreInjective(conf, es);
    SocksKeys(conf, es);
    PortsKeys(conf, es);
    assert |t.socks.Keys| == |t.socks|;
    InjectionSize(t.ports, t.socks.Keys);
    forall i: nat, p | i < |es| && TrackedOn(conf, es, i, p)
      ensures p in t.ports
    {
      TrackedPortIsAdmitted(conf, es, i, p);
    }
  }

  // ---- The plain history ----

  /** Where the latest redirected connect() of a socket was going. */
  ghost function LastDst(conf: Config, es: Run, c: U64): Option<Dest>
    requires conf.Valid()
  {
    if es == [] then None
    else if Last(es).Redirected(conf) && Last(es).Cookie() == c then Some(Last(es).attempt.dst)
    else LastDst(conf, Front(es), c)
  }

  /** The latest redirected connection established on a port. */
  ghost function LastOn(conf: Config, es: Run, port: U16): Option<U64>
    requires conf.Valid()
  {
    if es == [] then None
    else if Last(es).Establishes() && Low16(Last(es).localPort) == port
            && LastDst(conf, Front(es), Last(es).sockCookie).Some?
    then Some(Last(es).sockCookie)
    else LastOn(conf, Front(es), port)
  }

  /** What the proxy should be told about a connection accepted from a port. */
  ghost function Answer(conf: Config, es: Run, port: U16): Option<Dest>
    requires conf.Valid()
  {
    match LastOn(conf, es, port)
    case None => None
    case Some(c) => LastDst(conf, es, c)
  }

  /** No two sockets of the run share the low halves of their cookies. */
  ghost predicate DistinctKeys(es: Run) {
    forall i, j :: 0 <= i < |es| && 0 <= j < |es| ==>
      (es[i].Cookie() % 0x1_0000_0000 == es[j].Cookie() % 0x1_0000_0000 ==> es[i].Cookie() == es[j].Cookie())
  }

  lemma FrontDistinct(es: Run)
    requires es != [] && DistinctKeys(es)
    ensures DistinctKeys(Front(es))
  {
    forall i, j | 0 <= i < |es| - 1 && 0 <= j < |es| - 1
        && Front(es)[i].Cookie() % 0x1_0000_0000 == Front(es)[j].Cookie() % 0x1_0000_0000
      ensures Front(es)[i].Cookie() == Front(es)[j].Cookie()
    {
      assert es[i] == Front(es)[i] && es[j] == Front(es)[j];
    }
  }

  /** No other socket of the run shares the low half of this cookie. */
  ghost predicate OwnsKey(es: Run, c: U64) {
    forall i :: 0 <= i < |es| && es[i].Cookie() % 0x1_0000_0000 == c % 0x1_0000_0000 ==> es[i].Cookie() == c
  }

  lemma {:induction false} OwnKeyOwnDst(conf: Config, es: Run, c: U64)
    requires conf.Valid() && OwnsKey(es, c)
    ensures LastTo(conf, es, Key(c)) == LastDst(conf, es, c)
  {
    if es != [] {
      assert OwnsKey(Front(es), c) by {
        assert forall i :: 0 <= i < |es| - 1 ==> es[i] == Front(es)[i];
      }
      assert es[|es| - 1] == Last(es);
      OwnKeyOwnDst(conf, Front(es), c);
    }
  }

  lemma {:induction false} LastToIsKey(conf: Config, es: Run, k: U32)
    requires conf.Valid()
    ensures LastTo(conf, es, k).Some? <==> k in Keys(conf, es)
  {
    if es != [] {
      LastToIsKey(conf, Front(es), k);
    }
  }

  lemma {:induction false} AdmittedAreKeys(conf: Config, es: Run)
    requires conf.Valid()
    ensures Admitted(conf, es) <= Keys(conf, es)
    ensures |Keys(conf, es)| <= MAX_CONNECTIONS ==> Admitted(conf, es) == Keys(conf, es)
  {
    if es != [] {
      AdmittedAreKeys(conf, Front(es));
      SubsetSize(Keys(conf, Front(es)), Keys(conf, es));
      assert |Keys(conf, es)| <= MAX_CONNECTIONS && Last(es).Redirected(conf) ==>
          Keys(conf, es) == Admitted(conf, Front(es)) + {Key(Last(es).Cookie())};
    }
  }

  lemma {:induction false} SubsetSize<T>(a: set<T>, b: set<T>)
    requires a <= b
    ensures |a| <= |b|
  {
    if a != {} {
      var x :| x in a;
      SubsetSize(a - {x}, b - {x});
    }
  }

  // With room for all keys, and none shared, the tracked connections are the redirected ones.
  lemma {:induction false} LastTrackedIsLastOn(conf: Config, es: Run, port: U16)
    requires conf.Valid() && DistinctKeys(es) && |Keys(conf, es)| <= MAX_CONNECTIONS
    ensures LastTracked(conf, es, port) == LastOn(conf, es, port)
  {
    if es != [] {
      FrontDistinct(es);
      SubsetSize(Keys(conf, Front(es)), Keys(conf, es));
      LastTrackedIsLastOn(conf, Front(es), port);
      AdmittedAreKeys(conf, Front(es));
      var c := Last(es).Cookie();
      LastToIsKey(conf, Front(es), Key(c));
      assert OwnsKey(Front(es), c) by {
        assert es[|es| - 1] == Last(es) && forall i :: 0 <= i < |es| - 1 ==> es[i] == Front(es)[i];
      }
      OwnKeyOwnDst(conf, Front(es), c);
    }
  }

  /**
    When sockets have distinct truncated cookies, each is established at most once, and the run has at most
    20000 of them, the lookup is the plain history of the port.
   */
  lemma LookupIsHistory(conf: Config, es: Run, port: U16)
    requires conf.Valid() && DistinctKeys(es) && EstablishedOnce(es)
    requires |Keys(conf, es)| <= 20000
    ensures Lookup(After(conf, es), port) == Answer(conf, es, port)
  {
    LookupIsTrackedHistory(conf, es, port);
    LastTrackedIsLastOn(conf, es, port);
    if LastTracked(conf, es, port).Some? {
      var i := LastTrackedStep(conf, es, port);
      LastTrackedAt(conf, es, i, port);
      TrackedPortIsAdmitted(conf, es, i, port);
      assert OwnsKey(es, es[i].Cookie());
      OwnKeyOwnDst(conf, es, es[i].Cookie());
    }
  }

  // ---- When the hypotheses fail ----

  lemma {:induction false} TablesOnlyGrow(conf: Config, t: Tables, es: Run)
    requires conf.Valid()
    ensures t.socks.Keys <= From(conf, t, es).socks.Keys
    ensures t.ports.Keys <= From(conf, t, es).ports.Keys
    ensures |t.socks| >= MAX_CONNECTIONS ==> From(conf, t, es).socks.Keys == t.socks.Keys
  {
    if es != [] {
      TablesOnlyGrow(conf, t, Front(es));
      assert |t.socks.Keys| == |t.socks|;
      assert |From(conf, t, Front(es)).socks.Keys| == |From(conf, t, Front(es)).socks|;
    }
  }

  /**
    A full map_socks stays full of the same keys. If from then on only untracked sockets are established on a
    port, that port keeps leading where it led before, or nowhere.
   */
  lemma {:induction false} SaturationIsPermanent(conf: Config, t: Tables, es: Run, port: U16)
    requires conf.Valid() && |t.socks| >= MAX_CONNECTIONS
    requires forall i :: 0 <= i < |es| && es[i].Establishes() && Low16(es[i].localPort) == port ==>
               Key(es[i].sockCookie) !in t.socks
    ensures From(conf, t, es).socks.Keys == t.socks.Keys
    ensures port in From(conf, t, es).ports <==> port in t.ports
    ensures port in t.ports ==> From(conf, t, es).ports[port] == t.ports[port]
    ensures port !in t.ports ==> Lookup(From(conf, t, es), port) == None
  {
    TablesOnlyGrow(conf, t, es);
    if es != [] {
      forall i | 0 <= i < |Front(es)| && Front(es)[i].Establishes() && Low16(Front(es)[i].localPort) == port
        ensures Key(Front(es)[i].sockCookie) !in t.socks
      {
        assert es[i] == Front(es)[i];
      }
      SaturationIsPermanent(conf, t, Front(es), port);
    }
  }

  /** Two sockets whose cookies agree modulo 2^32 share one entry: the first is told the second's destination. */
  lemma CollidingCookiesShareDestination(conf: Config, first: Attempt, second: Attempt, localPort: U32)
    requires conf.Valid() && Redirects(conf, first) && Redirects(conf, second)
    requires first.cookie % 0x1_0000_0000 == second.cookie % 0x1_0000_0000
    ensures var established := SockOps(AF_INET, BPF_SOCK_OPS_ACTIVE_ESTABLISHED_CB, localPort, first.cookie);
            Lookup(After(conf, [Connect(first), established, Connect(second)]), Low16(localPort)) == Some(second.dst)
  {
    var established := SockOps(AF_INET, BPF_SOCK_OPS_ACTIVE_ESTABLISHED_CB, localPort, first.cookie);
    assert [Connect(first), established, Connect(second)] == [] + [Connect(first)] + [established] + [Connect(second)];
    AfterOneMore(conf, [], Connect(first));
    AfterOneMore(conf, [] + [Connect(first)], established);
    AfterOneMore(conf, [] + [Connect(first)] + [established], Connect(second));
    CollidingEntry(EMPTY, first.cookie, first.dst, second.cookie, second.dst, Low16(localPort));
  }

  lemma AfterOneMore(conf: Config, es: Run, e: Event)
    requires conf.Valid()
    ensures After(conf, es + [e]) == Step(conf, After(conf, es), e)
  {
    assert Front(es + [e]) == es;
  }

  lemma CollidingEntry(t: Tables, c: U64, x: Dest, d: U64, y: Dest, port: U16)
    requires Key(c) == Key(d)
    requires |t.socks| < MAX_CONNECTIONS && |t.ports| < MAX_CONNECTIONS
    ensures Lookup(Remember(Index(Remember(t, c, x), c, port), d, y), port) == Some(y)
  {
  }

  // ---- Truncated cookies, by number ----

  /** The tables tell two cookies apart if and only if they differ modulo 2^32. */
  lemma KeyIsLowHalf(c: U64, d: U64)
    ensures Key(c) == Key(d) <==> c % 0x1_0000_0000 == d % 0x1_0000_0000
  {
  }

  /** The events that index a port, by number: IPv4 (2) and an active connection that has been established (4). */
  lemma EstablishesByNumber(e: Event)
    ensures e.Establishes() <==> e.SockOps? && e.family == 2 && e.op == 4
  {
  }

  /** One redirected socket that is established on a port. */
  function Opened(a: Attempt, localPort: U32): Run {
    [Connect(a), SockOps(AF_INET, BPF_SOCK_OPS_ACTIVE_ESTABLISHED_CB, localPort, a.cookie)]
  }

  lemma AfterOpened(conf: Config, es: Run, a: Attempt, localPort: U32)
    requires conf.Valid() && Redirects(conf, a)
    ensures After(conf, es + Opened(a, localPort)) ==
            Index(Remember(After(conf, es), a.cookie, a.dst), a.cookie, Low16(localPort))
  {
    var established := SockOps(AF_INET, BPF_SOCK_OPS_ACTIVE_ESTABLISHED_CB, localPort, a.cookie);
    assert es + Opened(a, localPort) == es + [Connect(a)] + [established];
    AfterOneMore(conf, es, Connect(a));
    AfterOneMore(conf, es + [Connect(a)], established);
  }

  // A connection that finds room is told its destination, and takes one place in each table.
  lemma OwnEntry(t: Tables, c: U64, x: Dest, p: U16)
    requires |t.socks| < MAX_CONNECTIONS && |t.ports| < MAX_CONNECTIONS
    ensures var u := Index(Remember(t, c, x), c, p);
            && p in u.ports && u.ports[p] == c && Lookup(u, p) == Some(x)
            && |u.socks| <= |t.socks| + 1 && |u.ports| <= |t.ports| + 1
  {
  }

  // A connection with another key on another port leaves it so.
  lemma OtherEntry(t: Tables, p: U16, d: U64, y: Dest, q: U16)
    requires p in t.ports && Key(t.ports[p]) != Key(d) && p != q
    ensures Lookup(Index(Remember(t, d, y), d, q), p) == Lookup(t, p)
  {
  }

  /**
    After any run with room, two sockets whose cookies differ modulo 2^32, redirected and established one after the
    other on two ports, are each told their own destination.
   */
  lemma DistinctCookiesKeepDestinations(conf: Config, es: Run, a: Attempt, p: U32, b: Attempt, q: U32)
    requires conf.Valid() && Redirects(conf, a) && Redirects(conf, b)
    requires a.cookie % 0x1_0000_0000 != b.cookie % 0x1_0000_0000 && Low16(p) != Low16(q)
    requires |Admitted(conf, es)| + 2 <= 20000 && |AdmittedPorts(conf, es)| + 2 <= 20000
    ensures var t := After(conf, es + Opened(a, p) + Opened(b, q));
            Lookup(t, Low16(p)) == Some(a.dst) && Lookup(t, Low16(q)) == Some(b.dst)
  {
    var t := After(conf, es);
    SocksKeys(conf, es);
    PortsKeys(conf, es);
    assert |t.socks.Keys| == |t.socks| && |t.ports.Keys| == |t.ports|;
    AfterOpened(conf, es, a, p);
    AfterOpened(conf, es + Opened(a, p), b, q);
    OwnEntry(t, a.cookie, a.dst, Low16(p));
    KeyIsLowHalf(a.cookie, b.cookie);
    OtherEntry(After(conf, es + Opened(a, p)), Low16(p), b.cookie, b.dst, Low16(q));
    OwnEntry(After(conf, es + Opened(a, p)), b.cookie, b.dst, Low16(q));
  }
}
