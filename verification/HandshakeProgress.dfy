/**
  Progress of the tunnel handshake, and the runs that show what a stream read can take from either direction.
 */
module HandshakeProgress {
  import opened Queues
  import opened Tunnel
  import opened Conservation

  // ---- Termination ----

  function SenderRank(p: SenderPhase): nat {
    match p
    case Dialling => 6
    case Writing => 2
    case Awaiting => 1
    case _ => 0
  }

  function ReceiverRank(p: ReceiverPhase): nat {
    match p
    case Idle => 0
    case Reading => 3
    case Checking => 2
    case Acking => 1
    case _ => 0
  }

  function Rank(s: State): nat {
    SenderRank(s.c.sender) + ReceiverRank(s.c.receiver)
  }

  lemma ShakeDecreasesRank(s: State, h: Handshake)
    requires CanShake(s, h)
    ensures Rank(Shake(s, h)) < Rank(s)
  {
  }

  lemma OtherStepsKeepRank(s: State, l: Label)
    requires Enabled(s, l) && !l.H?
    ensures Rank(Apply(s, l)) <= Rank(s)
  {
    match l
    case K(k) => assert Apply(s, l).c == s.c;
    case O(o) => OutsideKeepsRank(s, o);
  }

  lemma OutsideKeepsRank(s: State, o: Outside)
    requires CanHappen(s.c, o)
    ensures Rank(Happen(s, o)) <= Rank(s)
  {
  }

  function Shakes(ls: seq<Label>): nat {
    if ls == [] then 0 else (if ls[0].H? then 1 else 0) + Shakes(ls[1..])
  }

  /** However copying and surroundings interleave, a run takes at most Rank(s) handshake steps: six from the start. */
  lemma {:induction false} HandshakeIsBounded(s: State, ls: seq<Label>, t: State)
    requires Runs(s, ls, t)
    ensures Shakes(ls) + Rank(t) <= Rank(s)
    decreases ls
  {
    if ls != [] {
      var s' := Apply(s, ls[0]);
      match ls[0] {
        case H(h) => ShakeDecreasesRank(s, h);
        case _ => OtherStepsKeepRank(s, ls[0]);
      }
      HandshakeIsBounded(s', ls[1..], t);
    }
  }

  // ---- Where it ends ----

  ghost predicate Settled(s: State) {
    forall h :: !CanShake(s, h)
  }

  predicate SenderDone(p: SenderPhase) {
    p.SSplicing? || p.SClosed?
  }

  predicate ReceiverDone(p: ReceiverPhase) {
    p.RSplicing? || p.RClosed?
  }

  // A waiting sender has something to read, or will be told that there is nothing.
  lemma SenderIsNotStuck(s: State)
    requires Inv(s) && !SenderDone(s.c.sender)
    requires s.c.sender.Awaiting? ==> ReceiverDone(s.c.receiver)
    ensures exists h :: CanShake(s, h)
  {
    match s.c.sender
    case Dialling => assert CanShake(s, SDial(true));
    case Writing => assert CanShake(s, SWriteHeader(0));
    case Awaiting =>
      if s.c.broken || s.c.receiver.RClosed? {
        assert CanShake(s, SAckFail);
      } else {
        var n := Readable(s.c.mode, s.r.rev, TMP_SIZE);
        assert CanShake(s, SAck(n));
      }
  }

  // A reading receiver has something to read once the header has been written, or will be told that there is nothing.
  lemma ReceiverIsNotStuck(s: State)
    requires Inv(s) && s.c.header != []
    requires !ReceiverDone(s.c.receiver) && !s.c.receiver.Idle?
    requires s.c.receiver.Reading? ==> !s.c.sender.Writing?
    ensures exists h :: CanShake(s, h)
  {
    match s.c.receiver
    case Reading =>
      if s.c.broken || s.c.sender.SClosed? {
        assert CanShake(s, RReadFail);
      } else {
        assert s.f.unsent == [] && Flat(s.f.fwd) == s.c.header;
        var n := Readable(s.c.mode, s.f.fwd, TMP_SIZE);
        assert CanShake(s, RRead(n));
      }
    case Checking => assert CanShake(s, RDial(true));
    case Acking => assert CanShake(s, RAck(false));
  }

  /** No deadlock: when no handshake step is left, both proxies are past the handshake or the tunnel never came up. */
  lemma SettledMeansDone(mode: Mode, header: Bytes, loopback: Bytes, s: State)
    requires Reachable(mode, header, loopback, s) && header != [] && Settled(s)
    ensures SenderDone(s.c.sender)
    ensures ReceiverDone(s.c.receiver) || (s.c.receiver.Idle? && s.c.sender.SClosed?)
    ensures !s.c.connected ==> s.f.targetGot == [] && s.r.clientGot == []
  {
    ReachableInv(mode, header, loopback, s);
    ForwardConservation(mode, header, loopback, s);
    if !s.c.connected {
      NothingBeforeConnected(s.c, s.r);
    }
    if !ReceiverDone(s.c.receiver) && !s.c.receiver.Idle? && !(s.c.receiver.Reading? && s.c.sender.Writing?) {
      ReceiverIsNotStuck(s);
    }
    if !SenderDone(s.c.sender) && (s.c.sender.Awaiting? ==> ReceiverDone(s.c.receiver)) {
      SenderIsNotStuck(s);
    }
  }

  predicate OnlyShakes(ls: seq<Label>) {
    forall i :: 0 <= i < |ls| ==> ls[i].H?
  }

  // During the handshake no proxy that got as far as copying has stopped.
  ghost predicate Undisturbed(s: State) {
    && (s.c.sender.SClosed? ==> s.c.receiver.Idle?)
    && (s.c.receiver.RClosed? ==> !s.c.connected)
  }

  lemma {:induction false} HandshakeRunUndisturbed(s: State, ls: seq<Label>, t: State)
    requires Inv(s) && Undisturbed(s) && Runs(s, ls, t) && OnlyShakes(ls)
    ensures Undisturbed(t)
    decreases ls
  {
    if ls != [] {
      var s' := Apply(s, ls[0]);
      assert Inv(s') by {
        StepKeepsInv(s, ls[0]);
      }
      ShakeUndisturbed(s, ls[0].h);
      HandshakeRunUndisturbed(s', ls[1..], t);
    }
  }

  lemma ShakeUndisturbed(s: State, h: Handshake)
    requires ControlInv(s.c) && Undisturbed(s) && CanShake(s, h)
    ensures Undisturbed(Shake(s, h))
  {
  }

  /** The target was reached and both proxies are past the handshake. */
  predicate EndsConnected(s: State) {
    s.c.connected && SenderDone(s.c.sender) && ReceiverDone(s.c.receiver)
  }

  /** The receiving proxy closed before it had reached a target, and the sending proxy is past its read. */
  predicate EndsRefused(s: State) {
    !s.c.connected && s.c.receiver.RClosed? && SenderDone(s.c.sender) && s.f.targetGot == [] && s.r.clientGot == []
  }

  /** The tunnel never came up. */
  predicate EndsUndialled(s: State) {
    !s.c.connected && s.c.sender.SClosed? && s.c.receiver.Idle? && s.f.targetGot == [] && s.r.clientGot == []
  }

  /**
    In every run, copying, failures and applications interleaved at will, at most six handshake steps happen, and
    when none is left the handshake has ended in one of three ways. If nothing else happened, the proxies that got
    to copying are still copying.
   */
  lemma MaximalHandshake(mode: Mode, header: Bytes, loopback: Bytes, ls: seq<Label>, t: State)
    requires header != [] && Runs(Init(mode, header, loopback), ls, t) && Settled(t)
    ensures Shakes(ls) <= 6
    ensures EndsConnected(t) || EndsRefused(t) || EndsUndialled(t)
    ensures OnlyShakes(ls) && EndsConnected(t) ==> t.c.sender.SSplicing? && t.c.receiver.RSplicing?
    ensures OnlyShakes(ls) && EndsRefused(t) ==> t.c.sender.SSplicing?
  {
    InitInv(mode, header, loopback);
    HandshakeIsBounded(Init(mode, header, loopback), ls, t);
    SettledMeansDone(mode, header, loopback, t);
    ReachableInv(mode, header, loopback, t);
    if OnlyShakes(ls) {
      HandshakeRunUndisturbed(Init(mode, header, loopback), ls, t);
    }
  }

  // ---- When nothing fails ----

  /** A handshake step that does not fail of itself: the dials succeed and the writes are complete. */
  predicate Succeeds(s: State, h: Handshake) {
    match h
    case SDial(ok) => ok
    case SWriteHeader(n) => n == |s.f.unsent|
    case RDial(ok) => ok
    case RAck(ok) => ok
    case _ => true
  }

  ghost predicate AllSucceed(s: State, ls: seq<Label>)
    decreases ls
  {
    ls != [] ==> ls[0].H? && CanShake(s, ls[0].h) && Succeeds(s, ls[0].h) && AllSucceed(Shake(s, ls[0].h), ls[1..])
  }

  ghost predicate Unharmed(s: State) {
    && !s.c.broken && !s.c.sender.SClosed?
    && (!BeforeFirstRead(s.c) ==> s.f.first != [])
    && (s.c.receiver.RClosed? ==> !s.c.connected && s.f.first == s.c.loopback)
    && (s.c.endOfRev ==> s.c.receiver.RClosed?)
  }

  lemma SuccessKeepsUnharmed(s: State, h: Handshake)
    requires ControlInv(s.c) && Unharmed(s) && CanShake(s, h) && Succeeds(s, h)
    ensures Unharmed(Shake(s, h))
  {
    if h.RRead? {
      ReadFits(s.c.mode, s.f.fwd, TMP_SIZE, h.n);
    }
  }

  lemma {:induction false} SuccessfulRun(s: State, ls: seq<Label>, t: State)
    requires Inv(s) && Unharmed(s) && Runs(s, ls, t) && AllSucceed(s, ls)
    ensures Inv(t) && Unharmed(t)
    decreases ls
  {
    if ls != [] {
      var s' := Apply(s, ls[0]);
      assert Inv(s') by {
        StepKeepsInv(s, ls[0]);
      }
      SuccessKeepsUnharmed(s, ls[0].h);
      SuccessfulRun(s', ls[1..], t);
    }
  }

  /**
    When dials succeed and writes are complete, the handshake ends with both proxies splicing and the answer read,
    unless the text that was read is the receiving proxy's own address: no read fails by itself.
   */
  lemma SuccessfulHandshakeConnects(mode: Mode, header: Bytes, loopback: Bytes, ls: seq<Label>, t: State)
    requires header != [] && Runs(Init(mode, header, loopback), ls, t)
    requires AllSucceed(Init(mode, header, loopback), ls) && Settled(t)
    ensures t.f.first != [] && t.f.first <= header
    ensures if t.f.first != loopback
            then t.c.connected && t.c.sender.SSplicing? && t.c.receiver.RSplicing? && t.r.ack != []
            else !t.c.connected && t.c.sender.SSplicing? && t.c.receiver.RClosed?
  {
    InitInv(mode, header, loopback);
    SuccessfulRun(Init(mode, header, loopback), ls, t);
    SettledMeansDone(mode, header, loopback, t);
    ForwardConservation(mode, header, loopback, t);
    ReachableInv(mode, header, loopback, t);
  }

  // ---- Runs over a plain stream that lose transparency ----

  lemma {:induction false} RunsOneMore(s: State, ls: seq<Label>, t: State, l: Label)
    requires Runs(s, ls, t) && Enabled(t, l)
    ensures Runs(s, ls + [l], Apply(t, l))
    decreases ls
  {
    if ls == [] {
      assert [l][1..] == [];
    } else {
      assert (ls + [l])[1..] == ls[1..] + [l];
      RunsOneMore(Apply(s, ls[0]), ls[1..], t, l);
    }
  }

  lemma ReachOneMore(mode: Mode, header: Bytes, loopback: Bytes, s: State, l: Label) returns (t: State)
    requires Reachable(mode, header, loopback, s) && Enabled(s, l)
    ensures t == Apply(s, l) && Reachable(mode, header, loopback, t)
  {
    t := Apply(s, l);
    var ls :| Runs(Init(mode, header, loopback), ls, s);
    RunsOneMore(Init(mode, header, loopback), ls, s, l);
  }

  lemma InitReachable(mode: Mode, header: Bytes, loopback: Bytes) returns (s: State)
    ensures s == Init(mode, header, loopback) && Reachable(mode, header, loopback, s)
  {
    s := Init(mode, header, loopback);
    assert Runs(s, [], s);
  }

  /**
    Whatever m bytes one read can return of the header, the receiving proxy then dials those m bytes: over a stream
    any m >= 1.
   */
  lemma ShortHeaderReadIsDialled(mode: Mode, header: Bytes, loopback: Bytes, m: nat) returns (s: State)
    requires header != [] && m <= |header| && CanRead(mode, [header], TMP_SIZE, m) && header[..m] != loopback
    ensures Reachable(mode, header, loopback, s)
    ensures s.c.mode == mode && s.c.connected && s.c.receiver.Acking? && s.c.sender.Awaiting?
    ensures !s.c.broken && !s.c.targetGone && !s.c.clientGone && s.c.upOpen && s.c.inOpen && !s.c.endOfRev
    ensures s.f.first == header[..m]
    ensures s.r.ack == [] && s.r.clientGot == []
    ensures s.r.rev == [] && s.r.unacked == ACK && s.r.out == [] && s.r.targetOut == [] && s.r.targetSent == []
  {
    s := InitReachable(mode, header, loopback);
    s := ReachOneMore(mode, header, loopback, s, H(SDial(true)));
    assert header[..|header|] == header;
    s := ReachOneMore(mode, header, loopback, s, H(SWriteHeader(|header|)));
    assert s.f.fwd == [header];
    OneWrite(header);
    s := ReachOneMore(mode, header, loopback, s, H(RRead(m)));
    s := ReachOneMore(mode, header, loopback, s, H(RDial(true)));
  }

  /**
    A target that speaks first can lose up to 255 bytes: over a stream the sending proxy's read may return them
    together with the answer, and by ReverseLoss they then never reach the client.
   */
  lemma ServerFirstBytesCanBeLost(header: Bytes, loopback: Bytes, b: Bytes) returns (s: State)
    requires 1 <= |header| <= TMP_SIZE && header != loopback && 1 <= |b| <= 255
    ensures Reachable(Stream, header, loopback, s)
    ensures s.c.sender.SSplicing? && s.c.receiver.RSplicing? && s.f.first == header
    ensures s.r.targetSent == b && s.r.ack == ACK + b && s.r.clientGot == []
  {
    assert header[..|header|] == header;
    OneWrite(header);
    s := ShortHeaderReadIsDialled(Stream, header, loopback, |header|);
    s := AnswerAndFirstBytes(header, loopback, s, b);
    s := ReachOneMore(Stream, header, loopback, s, H(SAck(1 + |b|)));
    assert (ACK + b)[..1 + |b|] == ACK + b;
  }

  // The answer and the target's first bytes enter the tunnel one after the other.
  lemma AnswerAndFirstBytes(header: Bytes, loopback: Bytes, s: State, b: Bytes) returns (t: State)
    requires Reachable(Stream, header, loopback, s) && 1 <= |b| <= COPY_SIZE
    requires s.c.connected && s.c.receiver.Acking? && !s.c.broken && !s.c.targetGone && s.c.mode.Stream?
    requires s.r.rev == [] && s.r.unacked == ACK && s.r.out == [] && s.r.targetOut == [] && s.r.targetSent == []
    ensures Reachable(Stream, header, loopback, t)
    ensures t.c == s.c.(receiver := RSplicing) && t.f == s.f
    ensures t.r == s.r.(rev := [ACK, b], unacked := [], targetSent := b)
    ensures Flat(t.r.rev) == ACK + b
  {
    t := TargetSpeaksFirst(header, loopback, s, b);
    t := CopyOut(header, loopback, t);
    assert [ACK, b] == [ACK] + [b];
    FlatAppend([ACK], b);
    OneWrite(ACK);
  }

  // The target speaks before the answer has been written.
  lemma TargetSpeaksFirst(header: Bytes, loopback: Bytes, s: State, b: Bytes) returns (t: State)
    requires Reachable(Stream, header, loopback, s)
    requires s.c.connected && s.c.receiver.Acking? && !s.c.broken && !s.c.targetGone
    requires s.r.rev == [] && s.r.unacked == ACK && s.r.targetOut == [] && s.r.targetSent == []
    ensures Reachable(Stream, header, loopback, t)
    ensures t.c == s.c.(receiver := RSplicing) && t.f == s.f
    ensures t.r == s.r.(rev := [ACK], unacked := [], targetOut := b, targetSent := b)
  {
    t := ReachOneMore(Stream, header, loopback, s, O(TargetSends(b)));
    assert [] + b == b;
    t := ReachOneMore(Stream, header, loopback, t, H(RAck(true)));
    assert [] + [ACK] == [ACK];
  }

  lemma OneWrite(b: Bytes)
    ensures Flat([b]) == b
  {
    FlatAppend([], b);
    assert [] + [b] == [b] && Flat([]) == [] && [] + b == b;
  }

  // The receiving proxy's reverse loop moves all that is waiting into the tunnel.
  lemma CopyOut(header: Bytes, loopback: Bytes, s: State) returns (t: State)
    requires Reachable(Stream, header, loopback, s)
    requires s.c.receiver.RSplicing? && !s.c.broken && s.c.mode.Stream?
    requires s.r.out == [] && 1 <= |s.r.targetOut| <= COPY_SIZE
    ensures Reachable(Stream, header, loopback, t)
    ensures t == s.(r := s.r.(rev := s.r.rev + [s.r.targetOut], targetOut := []))
  {
    var b := s.r.targetOut;
    assert b[..|b|] == b;
    t := ReachOneMore(Stream, header, loopback, s, K(OutRead(|b|)));
    t := ReachOneMore(Stream, header, loopback, t, K(OutWrite(|b|)));
  }

  /** One read can return a proper front of the header that is not the receiving proxy's own address. */
  ghost predicate CanBeCut(mode: Mode, header: Bytes, loopback: Bytes) {
    exists m: nat :: m < |header| && CanRead(mode, [header], TMP_SIZE, m) && header[..m] != loopback
  }

  /**
    When the target is reached transparently in every run: if and only if the header cannot be cut. That depends on
    the kind of connection and the length of the header alone: records of at most TMP_SIZE bytes cannot be cut, and
    of longer text over a stream at most the receiving proxy's own address is safe.
   */
  lemma TransparentUnlessCut(mode: Mode, header: Bytes, loopback: Bytes)
    ensures (forall s :: Reachable(mode, header, loopback, s) && s.c.connected ==>
               s.f.targetGot + ForwardInFlight(s.f) == s.f.clientSent) <==>
            !CanBeCut(mode, header, loopback)
  {
    if m: nat :| m < |header| && CanRead(mode, [header], TMP_SIZE, m) && header[..m] != loopback {
      var s := ShortHeaderReadIsDialled(mode, header, loopback, m);
      ForwardTransparency(mode, header, loopback, s);
      assert s.f.first != header;
    }
    if s :| Reachable(mode, header, loopback, s) && s.c.connected
            && s.f.targetGot + ForwardInFlight(s.f) != s.f.clientSent {
      ReachableInv(mode, header, loopback, s);
      ForwardTransparency(mode, header, loopback, s);
      OneWrite(header);
      assert header[..|s.f.first|] == s.f.first;
      assert CanRead(mode, [header], TMP_SIZE, |s.f.first|);
    }
  }

  lemma StepKeepsAck(s: State, l: Label)
    requires Inv(s) && Enabled(s, l) && s.r.ack != []
    ensures Apply(s, l).r.ack == s.r.ack && s.r.targetSent <= Apply(s, l).r.targetSent
  {
  }

  /** What the handshake read took is lost in every continuation: the client only ever gets later target bytes. */
  lemma {:induction false} LossIsFinal(s: State, ls: seq<Label>, u: State)
    requires Inv(s) && Runs(s, ls, u) && s.r.ack != []
    ensures u.r.ack == s.r.ack && s.r.targetSent <= u.r.targetSent
    ensures |s.r.ack| - 1 <= |u.r.targetSent| && u.r.clientGot <= u.r.targetSent[|s.r.ack| - 1..]
    decreases ls
  {
    if ls == [] {
      LossInState(s);
    } else {
      var s' := Apply(s, ls[0]);
      assert Inv(s') by {
        StepKeepsInv(s, ls[0]);
      }
      StepKeepsAck(s, ls[0]);
      LossIsFinal(s', ls[1..], u);
    }
  }
}
