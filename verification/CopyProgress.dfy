/**
  Progress of the four copy loops: copying alone always comes to an end, and while both proxies splice over a sound
  tunnel it only ends when everything has been delivered.
 */
module CopyProgress {
  import opened Queues
  import opened Tunnel
  import opened Conservation
  import P = HandshakeProgress

  // ---- Termination ----

  /** The number of reads and writes that each byte on its way has still ahead of it. */
  function ForwardRank(f: Forward): nat {
    4 * |f.clientOut| + 3 * |f.up| + 2 * |Flat(f.fwd)| + |f.toTarget|
  }

  function ReverseRank(r: Reverse): nat {
    4 * |r.targetOut| + 3 * |r.out| + 2 * |Flat(r.rev)| + |r.down|
  }

  function CopyRank(s: State): nat {
    ForwardRank(s.f) + ReverseRank(s.r)
  }

  lemma ForwardCopyDecreases(s: State, k: Copy)
    requires NoEmptyWrites(s.f.fwd) && CanCopy(s, k) && IsForward(k)
    ensures ForwardRank(CopyForward(s, k)) < ForwardRank(s.f)
  {
    match k
    case UpRead(n) =>
    case UpWrite(n) => FlatAppend(s.f.fwd, s.f.up[..n]);
    case InRead(n) =>
      ReadFits(s.c.mode, s.f.fwd, COPY_SIZE, n);
      FlatDrop(s.f.fwd, n);
    case InWrite(n) =>
  }

  lemma ReverseCopyDecreases(s: State, k: Copy)
    requires NoEmptyWrites(s.r.rev) && CanCopy(s, k) && !IsForward(k)
    ensures ReverseRank(CopyReverse(s, k)) < ReverseRank(s.r)
  {
    match k
    case OutRead(n) =>
    case OutWrite(n) => FlatAppend(s.r.rev, s.r.out[..n]);
    case DownRead(n) =>
      ReadFits(s.c.mode, s.r.rev, COPY_SIZE, n);
      FlatDrop(s.r.rev, n);
    case DownWrite(n) =>
  }

  /** Every read or write of a copy loop lowers the rank. */
  lemma CopyDecreasesRank(s: State, k: Copy)
    requires Inv(s) && CanCopy(s, k)
    ensures CopyRank(Apply(s, K(k))) < CopyRank(s)
  {
    if IsForward(k) {
      ForwardCopyDecreases(s, k);
    } else {
      ReverseCopyDecreases(s, k);
    }
  }

  predicate OnlyCopies(ls: seq<Label>) {
    forall i :: 0 <= i < |ls| ==> ls[i].K?
  }

  /** What copying leaves alone. */
  predicate SameSession(s: State, t: State) {
    && t.c == s.c
    && t.f.first == s.f.first && t.f.clientSent == s.f.clientSent
    && t.r.ack == s.r.ack && t.r.targetSent == s.r.targetSent
  }

  lemma CopyKeepsSession(s: State, k: Copy)
    requires CanCopy(s, k)
    ensures SameSession(s, Apply(s, K(k)))
  {
    if IsForward(k) {
      match k
      case UpRead(_) =>
      case UpWrite(_) =>
      case InRead(_) =>
      case InWrite(_) =>
    } else {
      match k
      case OutRead(_) =>
      case OutWrite(_) =>
      case DownRead(_) =>
      case DownWrite(_) =>
    }
  }

  lemma CopyStep(s: State, l: Label) returns (s': State)
    requires Inv(s) && l.K? && Enabled(s, l)
    ensures s' == Apply(s, l) && Inv(s') && CopyRank(s') < CopyRank(s) && SameSession(s, s')
  {
    s' := Apply(s, l);
    CopyDecreasesRank(s, l.k);
    CopyKeepsSession(s, l.k);
    assert Inv(s') by {
      StepKeepsInv(s, l);
    }
  }

  /** Copying alone takes no more steps than the rank. */
  lemma {:induction false} CopyIsBounded(s: State, ls: seq<Label>, t: State)
    requires Inv(s) && Runs(s, ls, t) && OnlyCopies(ls)
    ensures |ls| + CopyRank(t) <= CopyRank(s)
    ensures Inv(t) && SameSession(s, t)
    decreases ls
  {
    if ls != [] {
      var s' := CopyStep(s, ls[0]);
      CopyIsBounded(s', ls[1..], t);
    }
  }

  // ---- Where it ends ----

  /** Both proxies splice over a sound tunnel; their forward loops may have stopped. */
  predicate Sound(c: Control) {
    c.sender.SSplicing? && c.receiver.RSplicing? && !c.broken && !c.endOfRev
  }

  /** Both proxies copy in both directions. */
  predicate Flowing(c: Control) {
    Sound(c) && c.upOpen && c.inOpen
  }

  ghost predicate Drained(s: State) {
    forall k :: !CanCopy(s, k)
  }

  lemma ForwardDrained(s: State)
    requires Inv(s) && Flowing(s.c) && Drained(s)
    ensures ForwardInFlight(s.f) == []
  {
    var f := s.f;
    assert !CanCopy(s, UpWrite(1)) && !CanCopy(s, InWrite(1));
    assert f.up == [] && f.toTarget == [];
    assert !CanCopy(s, UpRead(1));
    if f.fwd != [] {
      var n := Readable(s.c.mode, f.fwd, COPY_SIZE);
      assert CanCopy(s, InRead(n));
    }
    assert Flat([]) == [];
  }

  lemma ReverseDrained(s: State)
    requires Inv(s) && Sound(s.c) && Drained(s)
    ensures ReverseInFlight(s.r) == []
  {
    var r := s.r;
    assert !CanCopy(s, OutWrite(1)) && !CanCopy(s, DownWrite(1));
    assert r.out == [] && r.down == [];
    assert !CanCopy(s, OutRead(1));
    if r.rev != [] {
      var n := Readable(s.c.mode, r.rev, COPY_SIZE);
      assert CanCopy(s, DownRead(n));
    }
    assert Flat([]) == [];
  }

  /** No deadlock of the copy loops: when none can move, everything that was sent has been delivered. */
  lemma DrainedMeansDelivered(s: State)
    requires Inv(s) && Flowing(s.c) && Drained(s)
    ensures s.f.first <= s.c.header && s.f.targetGot == s.c.header[|s.f.first|..] + s.f.clientSent
    ensures 1 <= |s.r.ack| <= |s.r.targetSent| + 1 && s.r.clientGot == s.r.targetSent[|s.r.ack| - 1..]
  {
    ForwardDrained(s);
    ReverseDrained(s);
    LossInState(s);
    DeliveredForward(s);
  }

  lemma DeliveredForward(s: State)
    requires Inv(s) && ForwardInFlight(s.f) == []
    ensures s.f.targetGot == s.c.header[|s.f.first|..] + s.f.clientSent
  {
    var f := s.f;
    assert ForwardPipe(f) == f.first + (f.targetGot + ForwardInFlight(f));
    assert f.first + f.targetGot == s.c.header + f.clientSent;
    assert s.c.header == f.first + s.c.header[|f.first|..];
    assert f.targetGot == (f.first + f.targetGot)[|f.first|..];
  }

  /**
    Copying delivers. From any reachable state in which both proxies splice over a sound tunnel, copying alone ends
    after at most CopyRank steps, however reads and writes are cut and interleaved, and then the target has got the
    rest of the header and all the client wrote, and the client all the target wrote but what the answer's read took.
   */
  lemma CopyDelivers(s: State, ls: seq<Label>, t: State)
    requires Inv(s) && Flowing(s.c) && Runs(s, ls, t) && OnlyCopies(ls)
    ensures |ls| <= CopyRank(s)
    ensures s.f.first <= s.c.header && 1 <= |s.r.ack| <= |s.r.targetSent| + 1
    ensures Drained(t) <==>
              && t.f.targetGot == s.c.header[|s.f.first|..] + s.f.clientSent
              && t.r.clientGot == s.r.targetSent[|s.r.ack| - 1..]
  {
    CopyIsBounded(s, ls, t);
    LossInState(s);
    LossInState(t);
    if Drained(t) {
      DrainedMeansDelivered(t);
    }
    if && t.f.targetGot == s.c.header[|s.f.first|..] + s.f.clientSent
       && t.r.clientGot == s.r.targetSent[|s.r.ack| - 1..] {
      NothingInFlight(t);
      forall k
        ensures !CanCopy(t, k)
      {
        NothingToCopy(t, k);
      }
    }
  }

  lemma NothingInFlight(t: State)
    requires Inv(t) && t.r.ack != []
    requires |t.r.ack| - 1 <= |t.r.targetSent|
    requires t.f.targetGot == t.c.header[|t.f.first|..] + t.f.clientSent
    requires t.r.clientGot == t.r.targetSent[|t.r.ack| - 1..]
    ensures ForwardInFlight(t.f) == [] && ReverseInFlight(t.r) == []
  {
    LossInState(t);
    assert ForwardPipe(t.f) == t.f.first + (t.f.targetGot + ForwardInFlight(t.f));
    assert |t.f.first + (t.f.targetGot + ForwardInFlight(t.f))| == |t.c.header + t.f.clientSent|;
    assert |t.r.clientGot + ReverseInFlight(t.r)| == |t.r.clientGot|;
  }

  lemma NothingToCopy(t: State, k: Copy)
    requires Inv(t) && ForwardInFlight(t.f) == [] && ReverseInFlight(t.r) == []
    ensures !CanCopy(t, k)
  {
    assert |ForwardInFlight(t.f)| == 0 && |ReverseInFlight(t.r)| == 0;
    if CanCopy(t, k) {
      match k
      case InRead(n) => ReadFits(t.c.mode, t.f.fwd, COPY_SIZE, n);
      case DownRead(n) => ReadFits(t.c.mode, t.r.rev, COPY_SIZE, n);
      case _ =>
    }
  }

  lemma CopyFirst(s: State, l: Label, rest: seq<Label>, t: State)
    requires l.K? && Enabled(s, l) && Runs(Apply(s, l), rest, t) && OnlyCopies(rest)
    ensures Runs(s, [l] + rest, t) && OnlyCopies([l] + rest)
  {
    assert ([l] + rest)[1..] == rest;
  }

  /** There is such a run: copying can always be carried on to its end. */
  lemma {:induction false} CopyToEnd(s: State) returns (ls: seq<Label>, t: State)
    requires Inv(s)
    ensures Runs(s, ls, t) && OnlyCopies(ls) && Drained(t)
    decreases CopyRank(s)
  {
    if Drained(s) {
      ls, t := [], s;
    } else {
      var k :| CanCopy(s, k);
      var s' := CopyStep(s, K(k));
      ls, t := CopyToEnd(s');
      CopyFirst(s, K(k), ls, t);
      ls := [K(k)] + ls;
    }
  }

  /** Over records, copying ends exactly when each side has got all that the other wrote. */
  lemma RecordsDeliverAll(header: Bytes, loopback: Bytes, s: State, ls: seq<Label>, t: State)
    requires Reachable(Records, header, loopback, s) && |header| <= TMP_SIZE
    requires Flowing(s.c) && Runs(s, ls, t) && OnlyCopies(ls)
    ensures Drained(t) <==> t.f.targetGot == s.f.clientSent && t.r.clientGot == s.r.targetSent
  {
    ReachableInv(Records, header, loopback, s);
    RecordsAreTransparent(header, loopback, s);
    CopyDelivers(s, ls, t);
    assert s.c.header[|s.f.first|..] == [] && [] + s.f.clientSent == s.f.clientSent;
    assert s.r.targetSent[0..] == s.r.targetSent;
  }

  // ---- When a loop has stopped ----

  /** On its way behind the near proxy. */
  function Arriving(f: Forward): Bytes {
    f.targetGot + (f.toTarget + Flat(f.fwd))
  }

  /** On its way before the far proxy. */
  function Leaving(f: Forward): Bytes {
    Flat(f.fwd) + (f.up + f.clientOut)
  }

  lemma CopyWithoutUp(s: State, k: Copy)
    requires Inv(s) && CanCopy(s, k) && !s.c.upOpen
    ensures Arriving(Apply(s, K(k)).f) == Arriving(s.f)
  {
    if IsForward(k) {
      match k
      case InRead(n) =>
        InReadMoves(s.f, s.c.mode, n);
        ReadFits(s.c.mode, s.f.fwd, COPY_SIZE, n);
        FlatDrop(s.f.fwd, n);
        Shift([], Flat(s.f.fwd), [], n);
      case InWrite(n) => Shift(s.f.targetGot, s.f.toTarget, Flat(s.f.fwd), n);
    }
  }

  lemma CopyWithoutIn(s: State, k: Copy)
    requires Inv(s) && CanCopy(s, k) && !s.c.inOpen && s.f.unsent == []
    ensures var f := Apply(s, K(k)).f;
            Leaving(f) == Leaving(s.f) && f.targetGot == s.f.targetGot && f.toTarget == s.f.toTarget && f.unsent == []
  {
    if IsForward(k) {
      match k
      case UpRead(n) => UpReadMoves(s.f, n);
      case UpWrite(n) =>
        FlatAppend(s.f.fwd, s.f.up[..n]);
        Shift(Flat(s.f.fwd), s.f.up, s.f.clientOut, n);
    }
  }

  lemma {:induction false} CopiesWithoutUp(s: State, ls: seq<Label>, t: State)
    requires Inv(s) && !s.c.upOpen && Runs(s, ls, t) && OnlyCopies(ls)
    ensures Arriving(t.f) == Arriving(s.f)
    decreases ls
  {
    if ls != [] {
      var s' := CopyStep(s, ls[0]);
      CopyWithoutUp(s, ls[0].k);
      CopiesWithoutUp(s', ls[1..], t);
    }
  }

  lemma {:induction false} CopiesWithoutIn(s: State, ls: seq<Label>, t: State)
    requires Inv(s) && !s.c.inOpen && s.f.unsent == [] && Runs(s, ls, t) && OnlyCopies(ls)
    ensures Leaving(t.f) == Leaving(s.f) && t.f.targetGot == s.f.targetGot && t.f.toTarget == s.f.toTarget
    decreases ls
  {
    if ls != [] {
      var s' := CopyStep(s, ls[0]);
      CopyWithoutIn(s, ls[0].k);
      CopiesWithoutIn(s', ls[1..], t);
    }
  }

  lemma FarLoopDrained(t: State)
    requires Inv(t) && Sound(t.c) && t.c.inOpen && Drained(t)
    ensures Arriving(t.f) == t.f.targetGot
  {
    var f := t.f;
    assert !CanCopy(t, InWrite(1));
    assert f.toTarget == [];
    if f.fwd != [] {
      var n := Readable(t.c.mode, f.fwd, COPY_SIZE);
      assert CanCopy(t, InRead(n));
    }
    assert Flat([]) == [];
  }

  lemma NearLoopDrained(t: State)
    requires Inv(t) && Sound(t.c) && t.c.upOpen && Drained(t)
    ensures t.f.up == [] && t.f.clientOut == []
  {
    assert !CanCopy(t, UpWrite(1));
    assert t.f.up == [];
    assert !CanCopy(t, UpRead(1));
  }

  lemma ReverseDelivered(t: State)
    requires Inv(t) && Sound(t.c) && Drained(t)
    ensures 1 <= |t.r.ack| <= |t.r.targetSent| + 1 && t.r.clientGot == t.r.targetSent[|t.r.ack| - 1..]
  {
    ReverseDrained(t);
    LossInState(t);
  }

  /** The near proxy's forward loop has ended because its client left. */
  function ClientGone(s: State): State
    requires Flowing(s.c)
  {
    Apply(Apply(s, O(ClientLeaves)), O(UpStop))
  }

  lemma AfterClientGone(s: State)
    requires Inv(s) && Flowing(s.c)
    ensures Inv(ClientGone(s)) && ClientGone(s) == s.(c := s.c.(clientGone := true, upOpen := false))
  {
    var gone := Apply(s, O(ClientLeaves));
    assert Inv(gone) by {
      StepKeepsInv(s, O(ClientLeaves));
    }
    StepKeepsInv(gone, O(UpStop));
  }

  /**
    A client that leaves ends the near proxy's forward loop only. All that had entered the tunnel still reaches the
    target, and all that the target wrote still reaches the client's connection, however the copying interleaves.
   */
  lemma TunnelEmptiesAfterClient(s: State, ls: seq<Label>, t: State)
    requires Inv(s) && Flowing(s.c) && Runs(ClientGone(s), ls, t) && OnlyCopies(ls) && Drained(t)
    ensures t.f.targetGot == s.f.targetGot + s.f.toTarget + Flat(s.f.fwd)
    ensures 1 <= |s.r.ack| <= |s.r.targetSent| + 1 && t.r.clientGot == s.r.targetSent[|s.r.ack| - 1..]
  {
    AfterClientGone(s);
    CopyIsBounded(ClientGone(s), ls, t);
    CopiesWithoutUp(ClientGone(s), ls, t);
    FarLoopDrained(t);
    ReverseDelivered(t);
    assert Arriving(s.f) == s.f.targetGot + s.f.toTarget + Flat(s.f.fwd);
  }

  /** The far proxy's forward loop has ended because its target left. */
  function TargetGone(s: State): State
    requires Flowing(s.c)
  {
    Apply(Apply(s, O(TargetLeaves)), O(InStop))
  }

  lemma AfterTargetGone(s: State)
    requires Inv(s) && Flowing(s.c)
    ensures Inv(TargetGone(s)) && TargetGone(s) == s.(c := s.c.(targetGone := true, inOpen := false))
  {
    var gone := Apply(s, O(TargetLeaves));
    assert Inv(gone) by {
      StepKeepsInv(s, O(TargetLeaves));
    }
    StepKeepsInv(gone, O(InStop));
  }

  /**
    A target that leaves ends the far proxy's forward loop only. What the client has written keeps entering the tunnel,
    behind what was there, and none of it reaches the target; what the target had written reaches the client.
   */
  lemma TunnelFillsAfterTarget(s: State, ls: seq<Label>, t: State)
    requires Inv(s) && Flowing(s.c) && Runs(TargetGone(s), ls, t) && OnlyCopies(ls) && Drained(t)
    ensures t.f.targetGot == s.f.targetGot
    ensures Flat(t.f.fwd) == Flat(s.f.fwd) + s.f.up + s.f.clientOut && t.f.up == [] && t.f.clientOut == []
    ensures 1 <= |s.r.ack| <= |s.r.targetSent| + 1 && t.r.clientGot == s.r.targetSent[|s.r.ack| - 1..]
  {
    AfterTargetGone(s);
    CopyIsBounded(TargetGone(s), ls, t);
    CopiesWithoutIn(TargetGone(s), ls, t);
    NearLoopDrained(t);
    ReverseDelivered(t);
    assert Leaving(t.f) == Flat(t.f.fwd);
    assert Leaving(s.f) == Flat(s.f.fwd) + s.f.up + s.f.clientOut;
  }

  // ---- Closing ----

  /** Nobody has left yet. */
  predicate AllPresent(c: Control) {
    Flowing(c) && !c.clientGone && !c.targetGone
  }

  /** While everybody is there and the tunnel works, no loop ends and no proxy closes. */
  lemma NothingEndsByItself(s: State, o: Outside)
    requires AllPresent(s.c) && (o.UpStop? || o.InStop? || o.SClose? || o.RClose?)
    ensures !Enabled(s, O(o))
  {
  }

  lemma StopsAfterClient(c: Control)
    requires AllPresent(c) && c.connected
    ensures var gone := c.(clientGone := true, upOpen := false);
            && CanHappen(gone, SClose) && !CanHappen(gone, InStop) && !CanHappen(gone, RClose)
            && (forall b :: !CanHappen(gone, ClientSends(b)) && CanHappen(gone, TargetSends(b)))
            && CanHappen(gone.(sender := SClosed), InStop) && CanHappen(gone.(sender := SClosed), RClose)
  {
  }

  lemma StopsAfterTarget(c: Control)
    requires AllPresent(c) && c.connected
    ensures var gone := c.(targetGone := true, inOpen := false);
            && CanHappen(gone, RClose) && !CanHappen(gone, UpStop) && !CanHappen(gone, SClose)
            && (forall b :: CanHappen(gone, ClientSends(b)) && !CanHappen(gone, TargetSends(b)))
            && CanHappen(gone.(receiver := RClosed), UpStop) && CanHappen(gone.(receiver := RClosed), SClose)
  {
  }

  lemma CopiesAfterClosing(s: State, k: Copy)
    requires k.InRead? || k.InWrite? || k.DownRead? || k.DownWrite?
    ensures k.InRead? || k.InWrite? ==> (CanCopy(s.(c := s.c.(sender := SClosed)), k) <==> CanCopy(s, k))
    ensures k.DownRead? || k.DownWrite? ==> !CanCopy(s.(c := s.c.(sender := SClosed)), k)
    ensures k.DownRead? || k.DownWrite? ==> (CanCopy(s.(c := s.c.(receiver := RClosed)), k) <==> CanCopy(s, k))
    ensures k.InRead? || k.InWrite? ==> !CanCopy(s.(c := s.c.(receiver := RClosed)), k)
  {
  }

  /**
    How a client's leaving spreads, and no faster: its own proxy may close, and only then may the far proxy end its
    forward loop and close. Closing ends the near proxy's reverse loop and leaves the far proxy's forward loop alone.
   */
  lemma ClosingFromClient(s: State, copies: seq<Label>, t: State, k: Copy)
    requires Inv(s) && AllPresent(s.c) && Runs(ClientGone(s), copies, t) && OnlyCopies(copies)
    ensures Enabled(t, O(SClose)) && !Enabled(t, O(InStop)) && !Enabled(t, O(RClose))
    ensures forall b :: !Enabled(t, O(ClientSends(b))) && Enabled(t, O(TargetSends(b)))
    ensures var closed := Apply(t, O(SClose));
            && Enabled(closed, O(InStop)) && Enabled(closed, O(RClose))
            && (k.InRead? || k.InWrite? ==> (CanCopy(closed, k) <==> CanCopy(t, k)))
            && (k.DownRead? || k.DownWrite? ==> !CanCopy(closed, k))
  {
    AfterClientGone(s);
    CopyIsBounded(ClientGone(s), copies, t);
    StopsAfterClient(s.c);
    assert Apply(t, O(SClose)) == t.(c := t.c.(sender := SClosed));
    if k.InRead? || k.InWrite? || k.DownRead? || k.DownWrite? {
      CopiesAfterClosing(t, k);
    }
  }

  /** The mirror image: a target's leaving lets the far proxy close, and only then the near proxy. */
  lemma ClosingFromTarget(s: State, copies: seq<Label>, t: State, k: Copy)
    requires Inv(s) && AllPresent(s.c) && Runs(TargetGone(s), copies, t) && OnlyCopies(copies)
    ensures Enabled(t, O(RClose)) && !Enabled(t, O(UpStop)) && !Enabled(t, O(SClose))
    ensures forall b :: Enabled(t, O(ClientSends(b))) && !Enabled(t, O(TargetSends(b)))
    ensures var closed := Apply(t, O(RClose));
            && Enabled(closed, O(UpStop)) && Enabled(closed, O(SClose))
            && (k.DownRead? || k.DownWrite? ==> (CanCopy(closed, k) <==> CanCopy(t, k)))
            && (k.InRead? || k.InWrite? ==> !CanCopy(closed, k))
  {
    AfterTargetGone(s);
    CopyIsBounded(TargetGone(s), copies, t);
    StopsAfterTarget(s.c);
    assert Apply(t, O(RClose)) == t.(c := t.c.(receiver := RClosed));
    if k.InRead? || k.InWrite? || k.DownRead? || k.DownWrite? {
      CopiesAfterClosing(t, k);
    }
  }

  /** A tunnel that fails lets both loops end and both proxies close. */
  lemma ClosingAfterFailure(s: State)
    requires AllPresent(s.c)
    ensures var failed := Apply(s, O(Break));
            && Enabled(failed, O(UpStop)) && Enabled(failed, O(InStop))
            && Enabled(failed, O(SClose)) && Enabled(failed, O(RClose))
  {
  }

  /** Such a state is reached for every header that can be dialled: copying starts with everybody present. */
  lemma CopyingStarts(mode: Mode, header: Bytes, loopback: Bytes) returns (s: State)
    requires 1 <= |header| <= TMP_SIZE && header != loopback
    ensures Reachable(mode, header, loopback, s) && AllPresent(s.c) && Inv(s)
    ensures s.f.first == header && s.r.ack == ACK
  {
    assert header[..|header|] == header;
    P.OneWrite(header);
    P.OneWrite(ACK);
    s := P.ShortHeaderReadIsDialled(mode, header, loopback, |header|);
    s := P.ReachOneMore(mode, header, loopback, s, H(RAck(true)));
    assert s.r.rev == [ACK];
    s := P.ReachOneMore(mode, header, loopback, s, H(SAck(1)));
    assert ACK[..1] == ACK;
    ReachableInv(mode, header, loopback, s);
  }

  // ---- A tunnel that fails ----

  /** The bytes in the tunnel, both ways. */
  function InTunnel(s: State): nat {
    |Flat(s.f.fwd)| + |Flat(s.r.rev)|
  }

  lemma BrokenShake(s: State, h: Handshake)
    requires Inv(s) && s.c.broken && CanShake(s, h)
    ensures Shake(s, h).c.broken && InTunnel(Shake(s, h)) <= InTunnel(s)
  {
    match h
    case SAck(n) =>
      ReadFits(s.c.mode, s.r.rev, TMP_SIZE, n);
      FlatDrop(s.r.rev, n);
    case RRead(n) =>
      ReadFits(s.c.mode, s.f.fwd, TMP_SIZE, n);
      FlatDrop(s.f.fwd, n);
    case _ =>
  }

  lemma BrokenCopy(s: State, k: Copy)
    requires Inv(s) && s.c.broken && CanCopy(s, k)
    ensures Apply(s, K(k)).c.broken && InTunnel(Apply(s, K(k))) <= InTunnel(s)
  {
    match k
    case InRead(n) =>
      ReadFits(s.c.mode, s.f.fwd, COPY_SIZE, n);
      FlatDrop(s.f.fwd, n);
    case DownRead(n) =>
      ReadFits(s.c.mode, s.r.rev, COPY_SIZE, n);
      FlatDrop(s.r.rev, n);
    case _ =>
  }

  lemma BrokenOutside(s: State, o: Outside)
    requires s.c.broken && CanHappen(s.c, o)
    ensures Happen(s, o).c.broken && InTunnel(Happen(s, o)) <= InTunnel(s)
  {
    var s' := Happen(s, o);
    assert s'.f.fwd == s.f.fwd && s'.r.rev == s.r.rev;
  }

  lemma BrokenStep(s: State, l: Label) returns (s': State)
    requires Inv(s) && s.c.broken && Enabled(s, l)
    ensures s' == Apply(s, l) && Inv(s') && s'.c.broken && InTunnel(s') <= InTunnel(s)
  {
    s' := Apply(s, l);
    assert Inv(s') by {
      StepKeepsInv(s, l);
    }
    match l
    case H(h) => BrokenShake(s, h);
    case K(k) => BrokenCopy(s, k);
    case O(o) => BrokenOutside(s, o);
  }

  lemma {:induction false} BrokenRun(s: State, ls: seq<Label>, t: State)
    requires Inv(s) && s.c.broken && Runs(s, ls, t)
    ensures t.c.broken && InTunnel(t) <= InTunnel(s)
    decreases ls
  {
    if ls != [] {
      var s' := BrokenStep(s, ls[0]);
      BrokenRun(s', ls[1..], t);
    }
  }

  /** Once the tunnel has failed, in no continuation does another byte enter it, in either direction. */
  lemma NothingEntersBrokenTunnel(s: State, ls: seq<Label>, t: State)
    requires Inv(s) && Runs(Apply(s, O(Break)), ls, t)
    ensures |Flat(t.f.fwd)| + |Flat(t.r.rev)| <= |Flat(s.f.fwd)| + |Flat(s.r.rev)|
  {
    assert Inv(Apply(s, O(Break))) by {
      StepKeepsInv(s, O(Break));
    }
    BrokenRun(Apply(s, O(Break)), ls, t);
  }
}
