/**
  What every run of the tunnel keeps: no byte is lost, duplicated or reordered on its way through the pipes,
  except for what the two handshake reads consume. The theorems say exactly what those reads can take.
 */
module Conservation {
  import opened Queues
  import opened Tunnel

  // ---- Invariants ----

  ghost predicate ControlInv(c: Control) {
    && (c.receiver.Acking? || c.receiver.RSplicing? ==> c.connected)
    && (c.connected ==> c.receiver.Acking? || c.receiver.RSplicing? || c.receiver.RClosed?)
    && (c.sender.SSplicing? && !c.receiver.RSplicing? && !c.receiver.RClosed? ==> c.broken)
    && (c.sender.Dialling? ==> c.receiver.Idle?)
    && (c.receiver.Idle? ==> c.sender.Dialling? || c.sender.SClosed?)
  }

  /** Everything on its way from the client to the target, furthest first. */
  ghost function ForwardPipe(f: Forward): Bytes {
    f.first + (f.targetGot + (f.toTarget + (Flat(f.fwd) + (f.unsent + (f.up + f.clientOut)))))
  }

  /** Everything on its way from the target to the client, furthest first. */
  ghost function ReversePipe(r: Reverse): Bytes {
    r.ack + (r.clientGot + (r.down + (Flat(r.rev) + (r.unacked + (r.out + r.targetOut)))))
  }

  ghost predicate ForwardInv(c: Control, f: Forward) {
    ForwardConserved(c, f) && ForwardPhases(c, f)
  }

  ghost predicate ReverseInv(c: Control, r: Reverse) {
    ReverseConserved(c, r) && ReversePhases(c, r)
  }

  ghost predicate ForwardConserved(c: Control, f: Forward) {
    ForwardPipe(f) == c.header + f.clientSent
  }

  ghost predicate ReverseConserved(c: Control, r: Reverse) {
    ReversePipe(r) == (if c.connected then ACK else []) + r.targetSent
  }

  predicate BeforeFirstRead(c: Control) {
    c.receiver.Idle? || c.receiver.Reading?
  }

  predicate BeforeAck(c: Control) {
    c.sender.Dialling? || c.sender.Writing? || c.sender.Awaiting?
  }

  ghost predicate ForwardPhases(c: Control, f: Forward) {
    && NoEmptyWrites(f.fwd)
    && (c.sender.Dialling? || c.sender.Writing? ==> f.fwd == [] && f.unsent == c.header && f.up == [])
    && (c.sender.Awaiting? || c.sender.SSplicing? ==> f.unsent == [] || c.broken)
    && (c.sender.Awaiting? ==> f.up == [])
    && (BeforeFirstRead(c) ==> f.first == [] && Flat(f.fwd) + f.unsent == c.header)
    && (BeforeFirstRead(c) && c.mode.Records? && f.fwd != [] ==> f.fwd[0] == c.header)
    && (!c.connected || c.receiver.Acking? ==> f.targetGot == [] && f.toTarget == [])
    && (c.connected ==> Dialable(c, f))
    && f.first <= c.header
    && |f.first| <= TMP_SIZE
    && (c.mode.Records? && f.first != [] ==> |f.first| == if |c.header| <= TMP_SIZE then |c.header| else TMP_SIZE)
  }

  ghost predicate ReversePhases(c: Control, r: Reverse) {
    && NoEmptyWrites(r.rev)
    && (!c.connected ==> r.targetSent == [])
    && (BeforeAck(c) ==> r.ack == [] && !c.endOfRev)
    && (r.ack == [] ==> r.clientGot == [] && r.down == [])
    && (c.sender.SSplicing? && r.ack == [] ==> c.endOfRev)
    && (c.receiver.Acking? ==> r.unacked == ACK && r.out == [])
    && (r.unacked != [] ==> r.rev == [])
    && (c.receiver.RSplicing? && r.unacked != [] ==> c.broken)
    && (c.connected && r.unacked == [] && BeforeAck(c) ==> r.rev != [] && r.rev[0] == ACK)
    && |r.ack| <= TMP_SIZE
    && (c.mode.Records? ==> r.ack == [] || r.ack == ACK)
  }

  ghost predicate Inv(s: State) {
    ControlInv(s.c) && ForwardInv(s.c, s.f) && ReverseInv(s.c, s.r)
  }

  lemma InitInv(mode: Mode, header: Bytes, loopback: Bytes)
    ensures Inv(Init(mode, header, loopback))
  {
  }

  // Before the receiver has answered, nothing is on its way to the client.
  lemma NothingBeforeConnected(c: Control, r: Reverse)
    requires ReverseInv(c, r) && !c.connected
    ensures ReversePipe(r) == [] && r.rev == [] && r.unacked == []
  {
    assert |Flat(r.rev)| == 0;
  }

  // ---- The forward pipe, label by label ----

  lemma WriteHeaderMoves(f: Forward, n: nat)
    requires n <= |f.unsent| && f.fwd == []
    ensures var f' := f.(fwd := if n > 0 then f.fwd + [f.unsent[..n]] else f.fwd, unsent := f.unsent[n..]);
            && ForwardPipe(f') == ForwardPipe(f)
            && NoEmptyWrites(f'.fwd) && Flat(f'.fwd) == f.unsent[..n]
  {
    FlatAppend(f.fwd, f.unsent[..n]);
    Shift([], f.unsent, f.up + f.clientOut, n);
  }

  lemma UpReadMoves(f: Forward, n: nat)
    requires f.up == [] && Part(n, f.clientOut)
    ensures ForwardPipe(f.(up := f.clientOut[..n], clientOut := f.clientOut[n..])) == ForwardPipe(f)
  {
    assert f.clientOut[..n] + f.clientOut[n..] == f.up + f.clientOut;
  }

  lemma UpWriteMoves(f: Forward, n: nat)
    requires f.unsent == [] && Part(n, f.up) && NoEmptyWrites(f.fwd)
    ensures var f' := f.(fwd := f.fwd + [f.up[..n]], up := f.up[n..]);
            ForwardPipe(f') == ForwardPipe(f) && NoEmptyWrites(f'.fwd)
  {
    FlatAppend(f.fwd, f.up[..n]);
    Shift(Flat(f.fwd), f.up, f.clientOut, n);
    assert [] + (f.up[n..] + f.clientOut) == f.up[n..] + f.clientOut;
    assert [] + (f.up + f.clientOut) == f.up + f.clientOut;
  }

  lemma FirstReadMoves(f: Forward, mode: Mode, n: nat)
    requires CanRead(mode, f.fwd, TMP_SIZE, n) && NoEmptyWrites(f.fwd)
    requires f.first == [] && f.targetGot == [] && f.toTarget == []
    ensures var f' := f.(first := Flat(f.fwd)[..n], fwd := Drop(f.fwd, n));
            ForwardPipe(f') == ForwardPipe(f) && NoEmptyWrites(f'.fwd)
  {
    ReadFits(mode, f.fwd, TMP_SIZE, n);
    FlatDrop(f.fwd, n);
    Shift([], Flat(f.fwd), f.unsent + (f.up + f.clientOut), n);
  }

  lemma InReadMoves(f: Forward, mode: Mode, n: nat)
    requires CanRead(mode, f.fwd, COPY_SIZE, n) && NoEmptyWrites(f.fwd)
    requires f.toTarget == []
    ensures var f' := f.(toTarget := Flat(f.fwd)[..n], fwd := Drop(f.fwd, n));
            ForwardPipe(f') == ForwardPipe(f) && NoEmptyWrites(f'.fwd)
  {
    ReadFits(mode, f.fwd, COPY_SIZE, n);
    FlatDrop(f.fwd, n);
    Shift([], Flat(f.fwd), f.unsent + (f.up + f.clientOut), n);
  }

  lemma InWriteMoves(f: Forward, n: nat)
    requires Part(n, f.toTarget)
    ensures ForwardPipe(f.(targetGot := f.targetGot + f.toTarget[..n], toTarget := f.toTarget[n..])) == ForwardPipe(f)
  {
    Shift(f.targetGot, f.toTarget, Flat(f.fwd) + (f.unsent + (f.up + f.clientOut)), n);
  }

  lemma ClientSendsMoves(f: Forward, b: Bytes)
    ensures ForwardPipe(f.(clientOut := f.clientOut + b, clientSent := f.clientSent + b)) == ForwardPipe(f) + b
  {
  }

  // ---- Every step keeps the invariants ----

  lemma ControlKept(s: State, h: Handshake)
    requires ControlInv(s.c) && ReverseInv(s.c, s.r)
    requires CanShake(s, h)
    ensures ControlInv(Shake(s, h).c)
  {
    if h.SAck? {
      ReadFits(s.c.mode, s.r.rev, TMP_SIZE, h.n);
      if !s.c.connected {
        NothingBeforeConnected(s.c, s.r);
      }
    }
  }

  lemma ForwardAfterWriteHeader(s: State, n: nat)
    requires ControlInv(s.c) && ForwardInv(s.c, s.f) && CanShake(s, SWriteHeader(n))
    ensures var s' := Shake(s, SWriteHeader(n)); ForwardInv(s'.c, s'.f)
  {
    WriteHeaderMoves(s.f, n);
    assert s.f.unsent[..n] + s.f.unsent[n..] == s.f.unsent;
  }

  lemma ForwardAfterFirstRead(s: State, n: nat)
    requires ControlInv(s.c) && ForwardInv(s.c, s.f) && CanShake(s, RRead(n))
    ensures var s' := Shake(s, RRead(n)); ForwardInv(s'.c, s'.f)
  {
    var f := s.f;
    ReadFits(s.c.mode, f.fwd, TMP_SIZE, n);
    FirstReadMoves(f, s.c.mode, n);
    assert Flat(f.fwd)[..n] == s.c.header[..n];
  }

  lemma ForwardAfterShake(s: State, h: Handshake)
    requires ControlInv(s.c) && ForwardInv(s.c, s.f) && CanShake(s, h)
    ensures var s' := Shake(s, h); ForwardInv(s'.c, s'.f)
  {
    match h
    case SWriteHeader(n) => ForwardAfterWriteHeader(s, n);
    case RRead(n) => ForwardAfterFirstRead(s, n);
    case _ => ForwardNeutralKeeps(s.c, Shake(s, h).c, s.f);
  }

  lemma ForwardAfterCopy(s: State, k: Copy)
    requires ControlInv(s.c) && ForwardInv(s.c, s.f) && CanCopy(s, k) && IsForward(k)
    ensures ForwardInv(s.c, CopyForward(s, k))
  {
    match k
    case UpRead(n) => UpReadMoves(s.f, n);
    case UpWrite(n) => UpWriteMoves(s.f, n);
    case InRead(n) => InReadMoves(s.f, s.c.mode, n);
    case InWrite(n) => InWriteMoves(s.f, n);
  }

  lemma ControlAfterOutside(c: Control, o: Outside)
    requires ControlInv(c) && CanHappen(c, o)
    ensures ControlInv(ControlAfter(c, o))
  {
  }

  lemma ForwardAfterClientSends(c: Control, f: Forward, b: Bytes)
    requires ForwardInv(c, f)
    ensures ForwardInv(c, f.(clientOut := f.clientOut + b, clientSent := f.clientSent + b))
  {
    ClientSendsMoves(f, b);
    assert c.header + (f.clientSent + b) == (c.header + f.clientSent) + b;
  }

  lemma OutsideIsForwardNeutral(c: Control, f: Forward, o: Outside)
    requires CanHappen(c, o) && (c.connected ==> Dialable(c, f))
    ensures ForwardNeutral(c, ControlAfter(c, o), f)
  {
  }

  lemma ForwardAfterOutside(s: State, o: Outside)
    requires ForwardInv(s.c, s.f) && CanHappen(s.c, o)
    ensures var s' := Happen(s, o); ForwardInv(s'.c, s'.f)
  {
    if o.ClientSends? {
      ForwardAfterClientSends(s.c, s.f, o.b);
    } else {
      OutsideIsForwardNeutral(s.c, s.f, o);
      ForwardNeutralKeeps(s.c, ControlAfter(s.c, o), s.f);
    }
  }

  /** How the control state may change without a handshake read or write of the forward direction. */
  ghost predicate ForwardNeutral(c: Control, c': Control, f: Forward) {
    && c'.mode == c.mode && c'.header == c.header && c'.loopback == c.loopback
    && (c.broken ==> c'.broken)
    && (c'.sender.Dialling? || c'.sender.Writing? ==> c.sender.Dialling? || c.sender.Writing?)
    && (c'.sender.Awaiting? ==> c.sender.Awaiting?)
    && (c'.sender.SSplicing? ==> c.sender.Awaiting? || c.sender.SSplicing?)
    && (BeforeFirstRead(c') ==> BeforeFirstRead(c))
    && (!c'.connected || c'.receiver.Acking? ==> !c.connected || c.receiver.Acking?)
    && (c'.connected ==> Dialable(c', f))
  }

  lemma ForwardNeutralKeeps(c: Control, c': Control, f: Forward)
    requires ForwardInv(c, f) && ForwardNeutral(c, c', f)
    ensures ForwardInv(c', f)
  {
  }

  // ---- The reverse pipe, label by label ----

  lemma AckReadMoves(r: Reverse, mode: Mode, n: nat)
    requires CanRead(mode, r.rev, TMP_SIZE, n) && NoEmptyWrites(r.rev)
    requires r.ack == [] && r.clientGot == [] && r.down == []
    ensures var r' := r.(ack := Flat(r.rev)[..n], rev := Drop(r.rev, n));
            ReversePipe(r') == ReversePipe(r) && NoEmptyWrites(r'.rev) && |r'.ack| == n
  {
    ReadFits(mode, r.rev, TMP_SIZE, n);
    FlatDrop(r.rev, n);
    Shift([], Flat(r.rev), r.unacked + (r.out + r.targetOut), n);
  }

  lemma DownReadMoves(r: Reverse, mode: Mode, n: nat)
    requires CanRead(mode, r.rev, COPY_SIZE, n) && NoEmptyWrites(r.rev)
    requires r.down == []
    ensures var r' := r.(down := Flat(r.rev)[..n], rev := Drop(r.rev, n));
            ReversePipe(r') == ReversePipe(r) && NoEmptyWrites(r'.rev)
  {
    ReadFits(mode, r.rev, COPY_SIZE, n);
    FlatDrop(r.rev, n);
    Shift([], Flat(r.rev), r.unacked + (r.out + r.targetOut), n);
  }

  lemma DownWriteMoves(r: Reverse, n: nat)
    requires Part(n, r.down)
    ensures ReversePipe(r.(clientGot := r.clientGot + r.down[..n], down := r.down[n..])) == ReversePipe(r)
  {
    Shift(r.clientGot, r.down, Flat(r.rev) + (r.unacked + (r.out + r.targetOut)), n);
  }

  lemma AckWriteMoves(r: Reverse)
    requires r.unacked != [] && NoEmptyWrites(r.rev)
    ensures var r' := r.(rev := r.rev + [r.unacked], unacked := []);
            ReversePipe(r') == ReversePipe(r) && NoEmptyWrites(r'.rev)
  {
    FlatAppend(r.rev, r.unacked);
    assert (Flat(r.rev) + r.unacked) + ([] + (r.out + r.targetOut)) ==
           Flat(r.rev) + (r.unacked + (r.out + r.targetOut));
  }

  lemma OutReadMoves(r: Reverse, n: nat)
    requires r.out == [] && Part(n, r.targetOut)
    ensures ReversePipe(r.(out := r.targetOut[..n], targetOut := r.targetOut[n..])) == ReversePipe(r)
  {
    assert r.targetOut[..n] + r.targetOut[n..] == r.out + r.targetOut;
  }

  lemma OutWriteMoves(r: Reverse, n: nat)
    requires r.unacked == [] && Part(n, r.out) && NoEmptyWrites(r.rev)
    ensures var r' := r.(rev := r.rev + [r.out[..n]], out := r.out[n..]);
            ReversePipe(r') == ReversePipe(r) && NoEmptyWrites(r'.rev)
  {
    FlatAppend(r.rev, r.out[..n]);
    Shift(Flat(r.rev), r.out, r.targetOut, n);
    assert [] + (r.out[n..] + r.targetOut) == r.out[n..] + r.targetOut;
    assert [] + (r.out + r.targetOut) == r.out + r.targetOut;
  }

  lemma TargetSendsMoves(r: Reverse, b: Bytes)
    ensures ReversePipe(r.(targetOut := r.targetOut + b, targetSent := r.targetSent + b)) == ReversePipe(r) + b
  {
  }

  lemma ReverseAfterAck(s: State, n: nat)
    requires ControlInv(s.c) && ReverseInv(s.c, s.r) && CanShake(s, SAck(n))
    ensures var s' := Shake(s, SAck(n)); ReverseInv(s'.c, s'.r)
  {
    ReadFits(s.c.mode, s.r.rev, TMP_SIZE, n);
    AckReadMoves(s.r, s.c.mode, n);
    if !s.c.connected {
      NothingBeforeConnected(s.c, s.r);
    }
    if s.c.mode.Records? {
      AckIsOwnRecord(s.c, s.r);
      RecordReadsWhole(s.r.rev, TMP_SIZE, n);
    }
  }

  // While nothing has been read, the answer is the oldest unread write.
  lemma AckIsOwnRecord(c: Control, r: Reverse)
    requires ControlInv(c) && ReverseInv(c, r) && BeforeAck(c)
    requires r.rev != []
    ensures r.rev[0] == ACK
  {
    if !c.connected {
      NothingBeforeConnected(c, r);
    }
  }

  lemma ReverseAfterDial(s: State, ok: bool)
    requires ControlInv(s.c) && ReverseInv(s.c, s.r) && CanShake(s, RDial(ok))
    ensures var s' := Shake(s, RDial(ok)); ReverseInv(s'.c, s'.r)
  {
    NothingBeforeConnected(s.c, s.r);
  }

  lemma ReverseAfterAnswer(s: State, ok: bool)
    requires ControlInv(s.c) && ReverseInv(s.c, s.r) && CanShake(s, RAck(ok))
    ensures var s' := Shake(s, RAck(ok)); ReverseInv(s'.c, s'.r)
  {
    AckWriteMoves(s.r);
  }

  lemma ReverseAfterShake(s: State, h: Handshake)
    requires ControlInv(s.c) && ReverseInv(s.c, s.r) && CanShake(s, h)
    ensures var s' := Shake(s, h); ReverseInv(s'.c, s'.r)
  {
    match h
    case SAck(n) => ReverseAfterAck(s, n);
    case RDial(ok) => ReverseAfterDial(s, ok);
    case RAck(ok) => ReverseAfterAnswer(s, ok);
    case _ => ReverseNeutralKeeps(s.c, Shake(s, h).c, s.r);
  }

  lemma ReverseAfterCopy(s: State, k: Copy)
    requires ControlInv(s.c) && ReverseInv(s.c, s.r) && CanCopy(s, k) && !IsForward(k)
    ensures ReverseInv(s.c, CopyReverse(s, k))
  {
    match k
    case OutRead(n) => OutReadMoves(s.r, n);
    case OutWrite(n) => OutWriteMoves(s.r, n);
    case DownRead(n) => DownReadMoves(s.r, s.c.mode, n);
    case DownWrite(n) => DownWriteMoves(s.r, n);
  }

  lemma ReverseAfterTargetSends(c: Control, r: Reverse, b: Bytes)
    requires ReverseInv(c, r) && c.connected
    ensures ReverseInv(c, r.(targetOut := r.targetOut + b, targetSent := r.targetSent + b))
  {
    TargetSendsMoves(r, b);
    assert ACK + (r.targetSent + b) == (ACK + r.targetSent) + b;
  }

  lemma OutsideIsReverseNeutral(c: Control, o: Outside)
    requires CanHappen(c, o)
    ensures ReverseNeutral(c, ControlAfter(c, o))
  {
  }

  lemma ReverseAfterOutside(s: State, o: Outside)
    requires ReverseInv(s.c, s.r) && CanHappen(s.c, o)
    ensures var s' := Happen(s, o); ReverseInv(s'.c, s'.r)
  {
    if o.TargetSends? {
      ReverseAfterTargetSends(s.c, s.r, o.b);
    } else {
      OutsideIsReverseNeutral(s.c, o);
      ReverseNeutralKeeps(s.c, ControlAfter(s.c, o), s.r);
    }
  }

  /** How the control state may change without a handshake read or write of the reverse direction. */
  ghost predicate ReverseNeutral(c: Control, c': Control) {
    && c'.mode == c.mode
    && c'.connected == c.connected
    && (c.broken ==> c'.broken)
    && (c.endOfRev ==> c'.endOfRev)
    && (BeforeAck(c') ==> BeforeAck(c) && c'.endOfRev == c.endOfRev)
    && (c'.sender.SSplicing? ==> c.sender.SSplicing? || c'.endOfRev)
    && (c'.receiver.Acking? ==> c.receiver.Acking?)
    && (c'.receiver.RSplicing? ==> c.receiver.RSplicing?)
  }

  lemma ReverseNeutralKeeps(c: Control, c': Control, r: Reverse)
    requires ReverseInv(c, r) && ReverseNeutral(c, c')
    ensures ReverseInv(c', r)
  {
  }

  lemma StepKeepsInv(s: State, l: Label)
    requires Inv(s) && Enabled(s, l)
    ensures Inv(Apply(s, l))
  {
    match l
    case H(h) =>
      ControlKept(s, h);
      ForwardAfterShake(s, h);
      ReverseAfterShake(s, h);
    case K(k) =>
      if IsForward(k) {
        ForwardAfterCopy(s, k);
      } else {
        ReverseAfterCopy(s, k);
      }
    case O(o) =>
      ControlAfterOutside(s.c, o);
      ForwardAfterOutside(s, o);
      ReverseAfterOutside(s, o);
  }

  lemma {:induction false} RunKeepsInv(s: State, ls: seq<Label>, t: State)
    requires Inv(s) && Runs(s, ls, t)
    ensures Inv(t) && SameTunnel(s, t)
    decreases ls
  {
    if ls != [] {
      var s' := Apply(s, ls[0]);
      assert Inv(s') by {
        StepKeepsInv(s, ls[0]);
      }
      RunKeepsInv(s', ls[1..], t);
    }
  }

  lemma ReachableInv(mode: Mode, header: Bytes, loopback: Bytes, s: State)
    requires Reachable(mode, header, loopback, s)
    ensures Inv(s) && s.c.mode == mode && s.c.header == header && s.c.loopback == loopback
  {
    var ls :| Runs(Init(mode, header, loopback), ls, s);
    InitInv(mode, header, loopback);
    RunKeepsInv(Init(mode, header, loopback), ls, s);
  }

  // ---- Main results ----

  /**
    Forward conservation. What the receiving proxy dials is the front of the header, and nothing is ever lost,
    duplicated or reordered: the dialled text, then what the target got, then everything still on its way, is
    the header followed by all the client wrote.
   */
  lemma ForwardConservation(mode: Mode, header: Bytes, loopback: Bytes, s: State)
    requires Reachable(mode, header, loopback, s)
    ensures s.f.first <= header
    ensures s.f.first + s.f.targetGot <= header + s.f.clientSent
    ensures ForwardPipe(s.f) == header + s.f.clientSent
    ensures !s.c.connected ==> s.f.targetGot == []
    ensures s.c.connected ==> s.f.first != [] && s.f.first != loopback
  {
    ReachableInv(mode, header, loopback, s);
    assert s.f.first + s.f.targetGot <= ForwardPipe(s.f);
  }

  /** Still on its way to the target. */
  ghost function ForwardInFlight(f: Forward): Bytes {
    f.toTarget + (Flat(f.fwd) + (f.unsent + (f.up + f.clientOut)))
  }

  /** Still on its way to the client. */
  ghost function ReverseInFlight(r: Reverse): Bytes {
    r.down + (Flat(r.rev) + (r.unacked + (r.out + r.targetOut)))
  }

  /** The target gets exactly what the client wrote if and only if the first read returned the whole header. */
  lemma ForwardTransparency(mode: Mode, header: Bytes, loopback: Bytes, s: State)
    requires Reachable(mode, header, loopback, s)
    ensures s.f.first <= header
    ensures s.f.targetGot + ForwardInFlight(s.f) == header[|s.f.first|..] + s.f.clientSent
    ensures s.f.targetGot + ForwardInFlight(s.f) == s.f.clientSent <==> s.f.first == header
  {
    ReachableInv(mode, header, loopback, s);
    var rest := s.f.targetGot + ForwardInFlight(s.f);
    assert ForwardPipe(s.f) == s.f.first + rest;
    assert header == s.f.first + header[|s.f.first|..];
    assert s.f.first + rest == s.f.first + (header[|s.f.first|..] + s.f.clientSent);
    assert rest == (s.f.first + rest)[|s.f.first|..];
    assert |rest| == |header| - |s.f.first| + |s.f.clientSent|;
  }

  /**
    Reverse loss. If the sending proxy's handshake read returned k + 1 bytes, they are the answer and the target's
    first k bytes, 0 <= k <= 255, and the client gets the rest in order; if it returned nothing, neither does the
    client.
   */
  lemma ReverseLoss(mode: Mode, header: Bytes, loopback: Bytes, s: State)
    requires Reachable(mode, header, loopback, s)
    ensures s.r.ack == [] ==> s.r.clientGot == []
    ensures s.r.ack != [] ==>
              var k := |s.r.ack| - 1;
              && 0 <= k <= 255 && k <= |s.r.targetSent|
              && s.r.ack == ACK + s.r.targetSent[..k]
              && s.r.clientGot + ReverseInFlight(s.r) == s.r.targetSent[k..]
  {
    ReachableInv(mode, header, loopback, s);
    if s.r.ack != [] {
      LossInState(s);
    }
  }

  lemma LossInState(s: State)
    requires Inv(s) && s.r.ack != []
    ensures var k := |s.r.ack| - 1;
            && 0 <= k <= 255 && k <= |s.r.targetSent|
            && s.r.ack == ACK + s.r.targetSent[..k]
            && s.r.clientGot + ReverseInFlight(s.r) == s.r.targetSent[k..]
  {
    var rest := s.r.clientGot + ReverseInFlight(s.r);
    assert ReversePipe(s.r) == s.r.ack + rest;
    if !s.c.connected {
      NothingBeforeConnected(s.c, s.r);
    }
    assert s.r.ack + rest == ACK + s.r.targetSent;
    SplitAfterFirst(s.r.ack, rest, ACK, s.r.targetSent);
  }

  lemma SplitAfterFirst(a: Bytes, b: Bytes, y: Bytes, t: Bytes)
    requires |a| >= 1 && |y| == 1 && a + b == y + t
    ensures |a| - 1 <= |t| && a == y + t[..|a| - 1] && b == t[|a| - 1..]
  {
    assert |a + b| == |y + t|;
    assert a == (y + t)[..|a|];
    assert b == (y + t)[|a|..];
  }

  /**
    With record-preserving reads (the TLS path) and a header that fits the buffer, both directions are transparent:
    a connected receiver has read the whole header, the answer is never delivered, and no byte is lost.
   */
  lemma RecordsAreTransparent(header: Bytes, loopback: Bytes, s: State)
    requires Reachable(Records, header, loopback, s) && |header| <= TMP_SIZE
    ensures s.f.first == [] || s.f.first == header
    ensures s.c.connected ==> s.f.first == header && s.f.targetGot + ForwardInFlight(s.f) == s.f.clientSent
    ensures s.r.ack == [] || s.r.ack == ACK
    ensures s.r.ack != [] ==> s.r.clientGot + ReverseInFlight(s.r) == s.r.targetSent
    ensures s.f.targetGot <= s.f.clientSent && s.r.clientGot <= s.r.targetSent
  {
    ReachableInv(Records, header, loopback, s);
    ForwardConservation(Records, header, loopback, s);
    ForwardTransparency(Records, header, loopback, s);
    ReverseLoss(Records, header, loopback, s);
  }
}
