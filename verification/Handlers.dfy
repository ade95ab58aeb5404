/**
  The handshake code of the two proxies, statement by statement over a connection and the 256-byte buffer, proved
  to take exactly the handshake steps of the tunnel. How many bytes a read returns or a write accepts and whether
  a dial succeeds are decided by the network and arrive as inputs; zero bytes read stands for an error.
 */
module Handlers {
  import opened Queues
  import opened Tunnel

  /** One end of the tunnel connection. */
  class Conn {
    const mode: Mode
    var incoming: Queue
    var outgoing: Queue
    var failed: bool
    var closed: bool

    constructor (mode: Mode, incoming: Queue, outgoing: Queue)
      ensures this.mode == mode && this.incoming == incoming && this.outgoing == outgoing && !failed && !closed
    {
      this.mode, this.incoming, this.outgoing, failed, closed := mode, incoming, outgoing, false, false;
    }

    /** Fills the front of tmp with the n bytes the network has for this read. */
    method Read(tmp: array<char>, n: nat)
      requires n == 0 || CanRead(mode, incoming, tmp.Length, n)
      modifies this`incoming, tmp
      ensures n <= tmp.Length && n <= |Flat(old(incoming))|
      ensures incoming == if n == 0 then old(incoming) else Drop(old(incoming), n)
      ensures tmp[..n] == Flat(old(incoming))[..n]
      ensures tmp[n..] == old(tmp[n..])
    {
      var data := Flat(incoming);
      if n > 0 {
        incoming := Drop(incoming, n);
      }
      for i := 0 to n
        invariant incoming == if n == 0 then old(incoming) else Drop(old(incoming), n)
        invariant tmp[..i] == data[..i]
        invariant tmp[i..] == old(tmp[i..])
      {
        tmp[i] := data[i];
      }
    }

    /** Writes the first n bytes of b; writing less is a failure, after which nothing more is accepted. */
    method Write(b: Bytes, n: nat) returns (ok: bool)
      requires n <= |b| && (failed ==> n == 0 && b != [])
      modifies this`outgoing, this`failed
      ensures outgoing == if n > 0 then old(outgoing) + [b[..n]] else old(outgoing)
      ensures ok == (n == |b|)
      ensures failed == (old(failed) || !ok)
    {
      if n > 0 {
        outgoing := outgoing + [b[..n]];
      }
      ok := n == |b|;
      failed := failed || !ok;
    }

    method Close()
      modifies this`closed
      ensures closed
    {
      closed := true;
    }

    /** This end of the connection is the sending proxy's in s. */
    ghost predicate IsSenderOf(s: State)
      reads this
    {
      mode == s.c.mode && incoming == s.r.rev && outgoing == s.f.fwd && failed == s.c.broken
    }

    /** This end of the connection is the receiving proxy's in s. */
    ghost predicate IsReceiverOf(s: State)
      reads this
    {
      mode == s.c.mode && incoming == s.f.fwd && outgoing == s.r.rev && failed == s.c.broken
    }
  }

  /** The receiving proxy's read, an error when n is zero. */
  function ReadStep(n: nat): Handshake {
    if n == 0 then RReadFail else RRead(n)
  }

  /** The receiving proxy's handshake as steps of the tunnel. */
  ghost function ReceiverSteps(s: State, n: nat, dialOk: bool, ackOk: bool): State
    requires CanShake(s, ReadStep(n))
    requires ackOk ==> !s.c.broken
  {
    AfterRead(s, n);
    DialAndAnswer(Shake(s, ReadStep(n)), dialOk, ackOk)
  }

  ghost function DialAndAnswer(s: State, dialOk: bool, ackOk: bool): State
    requires s.c.receiver.Checking? && (ackOk ==> !s.c.broken)
  {
    var dialled := Shake(s, RDial(dialOk));
    if dialled.c.receiver.Acking? then Shake(dialled, RAck(ackOk)) else dialled
  }

  lemma AfterRead(s: State, n: nat)
    requires CanShake(s, ReadStep(n))
    ensures n <= |Flat(s.f.fwd)|
    ensures var t := Shake(s, ReadStep(n));
            && t.c == s.c.(receiver := Checking)
            && t.f == (if n == 0 then s.f else s.f.(first := Flat(s.f.fwd)[..n], fwd := Drop(s.f.fwd, n)))
            && t.r == s.r
  {
    if n > 0 {
      ReadFits(s.c.mode, s.f.fwd, TMP_SIZE, n);
    }
  }

  lemma AfterDialAndAnswer(s: State, dialOk: bool, ackOk: bool)
    requires s.c.receiver.Checking? && (ackOk ==> !s.c.broken)
    ensures var t := DialAndAnswer(s, dialOk, ackOk);
            var connects := dialOk && Dialable(s.c, s.f);
            && t.c.mode == s.c.mode && t.f == s.f
            && t.r.rev == (if connects && ackOk then s.r.rev + [ACK] else s.r.rev)
            && t.c.broken == (s.c.broken || (connects && !ackOk))
            && (if connects then t.c.receiver.RSplicing? && t.c.connected else t.c.receiver.RClosed?)
  {
  }

  /**
    handleExternalConnection and handleTLSExternalConnection up to the copy loops. The connection stays open, and
    splicing starts, exactly when the text that was read is neither empty nor the proxy's own address and the dial
    succeeds.
   */
  method HandleExternalConnection(conn: Conn, own: Bytes, n: nat, dialOk: bool, ackOk: bool, ghost s: State)
    returns (remoteAddress: Bytes, splicing: bool)
    requires conn.IsReceiverOf(s) && !conn.closed && own == s.c.loopback
    requires s.f.first == [] && CanShake(s, ReadStep(n))
    requires ackOk ==> !s.c.broken
    modifies conn`incoming, conn`outgoing, conn`failed, conn`closed
    ensures remoteAddress == Flat(old(conn.incoming))[..n]
    ensures splicing <==> dialOk && remoteAddress != [] && remoteAddress != own
    ensures conn.closed == !splicing
    ensures conn.outgoing == if splicing && ackOk then old(conn.outgoing) + ["Y"] else old(conn.outgoing)
    ensures var t := ReceiverSteps(s, n, dialOk, ackOk);
            && conn.IsReceiverOf(t)
            && t.f.first == remoteAddress
            && (if splicing then t.c.receiver.RSplicing? && t.c.connected else t.c.receiver.RClosed?)
  {
    AfterRead(s, n);
    AfterDialAndAnswer(Shake(s, ReadStep(n)), dialOk, ackOk);
    var tmp := new char[256];
    conn.Read(tmp, n);
    remoteAddress := tmp[..n];

    if remoteAddress == own {
      conn.Close();
      return remoteAddress, false;
    }
    if remoteAddress == [] || !dialOk {
      conn.Close();
      return remoteAddress, false;
    }
    assert ACK[..1] == ACK;
    var ok := conn.Write(ACK, if ackOk then 1 else 0);
    return remoteAddress, true;
  }

  /** internalProxy from the write of the original destination to the read it blocks on. */
  method SendDestination(targetConn: Conn, targetDestination: Bytes, n: nat, ghost s: State)
    requires targetConn.IsSenderOf(s) && CanShake(s, SWriteHeader(n))
    requires s.f.unsent == s.c.header == targetDestination && targetDestination != []
    modifies targetConn`outgoing, targetConn`failed
    ensures targetConn.IsSenderOf(Shake(s, SWriteHeader(n)))
  {
    var ok := targetConn.Write(targetDestination, n);
    // A failure is only logged.
  }

  /** internalProxy's one read: whatever it returns is thrown away and copying starts. */
  method AwaitAnswer(targetConn: Conn, n: nat, ghost s: State)
    requires targetConn.IsSenderOf(s) && CanShake(s, if n == 0 then SAckFail else SAck(n))
    modifies targetConn`incoming
    ensures targetConn.IsSenderOf(Shake(s, if n == 0 then SAckFail else SAck(n)))
    ensures Shake(s, if n == 0 then SAckFail else SAck(n)).c.sender.SSplicing?
  {
    var tmp := new char[256];
    targetConn.Read(tmp, n);
  }
}
