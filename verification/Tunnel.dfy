/**
  The tunnel between two proxies as a step system (pkg/connection/connection.go): the sending proxy writes the
  original destination and waits for one read, the receiving proxy does one read, dials what it read and answers
  with one byte, and then each proxy runs two copy loops. Every interleaving of the loops, every size of read and
  write, a failing connection and the order of closing are choices of the step labels.
 */
module Tunnel {
  import opened Queues

  datatype SenderPhase = Dialling | Writing | Awaiting | SSplicing | SClosed
  datatype ReceiverPhase = Idle | Reading | Checking | Acking | RSplicing | RClosed

  /** The size of the buffer both handshake reads use. */
  const TMP_SIZE := 256

  /** The buffer of io.Copy. */
  const COPY_SIZE := 32768

  /** The largest plaintext of one record (section 5.1 of RFC 8446). */
  const RECORD_SIZE := 16384

  const ACK: Bytes := "Y"

  datatype Control = Control(
    mode: Mode,
    header: Bytes,       // the original destination as addr:port
    loopback: Bytes,     // the receiving proxy's own internal address
    sender: SenderPhase,
    receiver: ReceiverPhase,
    broken: bool,        // the tunnel has failed: nothing more can be written to it
    connected: bool,     // the receiver reached the target
    endOfRev: bool,      // the sender has seen the end of what it can read
    clientGone: bool,
    targetGone: bool,
    upOpen: bool,        // the sender's client-to-tunnel loop is running
    inOpen: bool)        // the receiver's tunnel-to-target loop is running

  /** From the client to the target; data moves towards the front. */
  datatype Forward = Forward(
    first: Bytes,        // what the receiver's only handshake read returned
    targetGot: Bytes,
    toTarget: Bytes,     // in the receiver's copy buffer
    fwd: Queue,          // in the tunnel
    unsent: Bytes,       // the part of the header that has not been written
    up: Bytes,           // in the sender's copy buffer
    clientOut: Bytes,    // not yet read by the sender
    clientSent: Bytes)   // all the client ever wrote

  /** From the target to the client; data moves towards the front. */
  datatype Reverse = Reverse(
    ack: Bytes,          // what the sender's only handshake read returned
    clientGot: Bytes,
    down: Bytes,         // in the sender's copy buffer
    rev: Queue,          // in the tunnel
    unacked: Bytes,      // the answer while it has not been written
    out: Bytes,          // in the receiver's copy buffer
    targetOut: Bytes,    // not yet read by the receiver
    targetSent: Bytes)   // all the target ever wrote

  datatype State = State(c: Control, f: Forward, r: Reverse)

  /** The steps up to the start of the copy loops. */
  datatype Handshake =
    | SDial(ok: bool)
    | SWriteHeader(n: nat)
    | SAck(n: nat)
    | SAckFail
    | RRead(n: nat)
    | RReadFail
    | RDial(ok: bool)
    | RAck(ok: bool)

  /** One read or one write of a copy loop. */
  datatype Copy =
    | UpRead(n: nat)
    | UpWrite(n: nat)
    | InRead(n: nat)
    | InWrite(n: nat)
    | OutRead(n: nat)
    | OutWrite(n: nat)
    | DownRead(n: nat)
    | DownWrite(n: nat)

  /** What the applications and the network do, and how the copy loops end. */
  datatype Outside =
    | ClientSends(b: Bytes)
    | TargetSends(b: Bytes)
    | ClientLeaves
    | TargetLeaves
    | Break
    | UpStop
    | InStop
    | SClose
    | RClose

  datatype Label = H(h: Handshake) | K(k: Copy) | O(o: Outside)

  function Init(mode: Mode, header: Bytes, loopback: Bytes): State {
    State(
      Control(mode, header, loopback, Dialling, Idle, false, false, false, false, false, true, true),
      Forward([], [], [], [], header, [], [], []),
      Reverse([], [], [], [], [], [], [], []))
  }

  predicate Part(n: nat, b: Bytes) {
    1 <= n <= |b|
  }

  /** The one connection the guard refuses, and what net.Dial refuses. */
  predicate Dialable(c: Control, f: Forward) {
    f.first != [] && f.first != c.loopback
  }

  /** What no step changes. */
  predicate SameTunnel(s: State, t: State) {
    t.c.mode == s.c.mode && t.c.header == s.c.header && t.c.loopback == s.c.loopback
  }

  // ---- Handshake steps ----

  predicate CanShake(s: State, h: Handshake) {
    var c, f, r := s.c, s.f, s.r;
    match h
    case SDial(ok) => c.sender.Dialling?
    case SWriteHeader(n) =>
      && c.sender.Writing? && n <= |f.unsent|
      && (c.broken ==> n == 0)
      && (c.mode.Records? ==> n == 0 || n == |f.unsent|)
    case SAck(n) => c.sender.Awaiting? && CanRead(c.mode, r.rev, TMP_SIZE, n)
    case SAckFail => c.sender.Awaiting? && (c.broken || c.receiver.RClosed?)
    case RRead(n) => c.receiver.Reading? && CanRead(c.mode, f.fwd, TMP_SIZE, n)
    case RReadFail => c.receiver.Reading? && (c.broken || c.sender.SClosed?)
    case RDial(ok) => c.receiver.Checking?
    case RAck(ok) => c.receiver.Acking? && (ok ==> !c.broken)
  }

  /**
    A failed write of the header is only logged, and so is a failed read; the sending proxy starts copying
    whatever its read returned. An empty read makes the receiving proxy dial the empty string, which fails.
   */
  function Shake(s: State, h: Handshake): (s': State)
    requires CanShake(s, h)
    ensures SameTunnel(s, s')
  {
    var c, f, r := s.c, s.f, s.r;
    match h
    case SDial(ok) => s.(c := if ok then c.(sender := Writing, receiver := Reading) else c.(sender := SClosed))
    case SWriteHeader(n) =>
      s.(c := c.(sender := Awaiting, broken := c.broken || n < |f.unsent|),
         f := f.(fwd := if n > 0 then f.fwd + [f.unsent[..n]] else f.fwd, unsent := f.unsent[n..]))
    case SAck(n) => s.(c := c.(sender := SSplicing), r := r.(ack := Flat(r.rev)[..n], rev := Drop(r.rev, n)))
    case SAckFail => s.(c := c.(sender := SSplicing, endOfRev := true))
    case RRead(n) => s.(c := c.(receiver := Checking), f := f.(first := Flat(f.fwd)[..n], fwd := Drop(f.fwd, n)))
    case RReadFail => s.(c := c.(receiver := Checking))
    case RDial(ok) =>
      if ok && Dialable(c, f) then s.(c := c.(receiver := Acking, connected := true), r := r.(unacked := ACK))
      else s.(c := c.(receiver := RClosed))
    case RAck(ok) =>
      s.(c := c.(receiver := RSplicing, broken := c.broken || !ok),
         r := if ok then r.(rev := r.rev + [r.unacked], unacked := []) else r)
  }

  // ---- Copy loops ----

  predicate CanCopy(s: State, k: Copy) {
    var c, f, r := s.c, s.f, s.r;
    match k
    case UpRead(n) => c.sender.SSplicing? && c.upOpen && f.up == [] && Part(n, f.clientOut) && n <= COPY_SIZE
    case UpWrite(n) =>
      c.sender.SSplicing? && c.upOpen && !c.broken && Part(n, f.up) && (c.mode.Records? ==> n <= RECORD_SIZE)
    case InRead(n) => c.receiver.RSplicing? && c.inOpen && f.toTarget == [] && CanRead(c.mode, f.fwd, COPY_SIZE, n)
    case InWrite(n) => c.receiver.RSplicing? && c.inOpen && Part(n, f.toTarget)
    case OutRead(n) => c.receiver.RSplicing? && r.out == [] && Part(n, r.targetOut) && n <= COPY_SIZE
    case OutWrite(n) => c.receiver.RSplicing? && !c.broken && Part(n, r.out) && (c.mode.Records? ==> n <= RECORD_SIZE)
    case DownRead(n) => c.sender.SSplicing? && !c.endOfRev && r.down == [] && CanRead(c.mode, r.rev, COPY_SIZE, n)
    case DownWrite(n) => c.sender.SSplicing? && Part(n, r.down)
  }

  predicate IsForward(k: Copy) {
    k.UpRead? || k.UpWrite? || k.InRead? || k.InWrite?
  }

  function CopyForward(s: State, k: Copy): (f': Forward)
    requires CanCopy(s, k) && IsForward(k)
  {
    var f := s.f;
    match k
    case UpRead(n) => f.(up := f.clientOut[..n], clientOut := f.clientOut[n..])
    case UpWrite(n) => f.(fwd := f.fwd + [f.up[..n]], up := f.up[n..])
    case InRead(n) => f.(toTarget := Flat(f.fwd)[..n], fwd := Drop(f.fwd, n))
    case InWrite(n) => f.(targetGot := f.targetGot + f.toTarget[..n], toTarget := f.toTarget[n..])
  }

  function CopyReverse(s: State, k: Copy): (r': Reverse)
    requires CanCopy(s, k) && !IsForward(k)
  {
    var r := s.r;
    match k
    case OutRead(n) => r.(out := r.targetOut[..n], targetOut := r.targetOut[n..])
    case OutWrite(n) => r.(rev := r.rev + [r.out[..n]], out := r.out[n..])
    case DownRead(n) => r.(down := Flat(r.rev)[..n], rev := Drop(r.rev, n))
    case DownWrite(n) => r.(clientGot := r.clientGot + r.down[..n], down := r.down[n..])
  }

  // ---- Surroundings ----

  /** A copy loop or a proxy stops only after one of its connections has ended or failed. */
  predicate CanHappen(c: Control, o: Outside) {
    match o
    case ClientSends(b) => !c.clientGone
    case TargetSends(b) => c.connected && !c.targetGone
    case ClientLeaves => true
    case TargetLeaves => true
    case Break => true
    case UpStop => c.sender.SSplicing? && (c.clientGone || c.broken || c.receiver.RClosed?)
    case InStop => c.receiver.RSplicing? && (c.sender.SClosed? || c.broken || c.targetGone)
    case SClose => c.sender.SSplicing? && (c.receiver.RClosed? || c.broken || c.clientGone)
    case RClose => c.receiver.RSplicing? && (c.targetGone || c.broken || c.sender.SClosed?)
  }

  function ControlAfter(c: Control, o: Outside): Control {
    match o
    case ClientSends(_) => c
    case TargetSends(_) => c
    case ClientLeaves => c.(clientGone := true)
    case TargetLeaves => c.(targetGone := true)
    case Break => c.(broken := true)
    case UpStop => c.(upOpen := false)
    case InStop => c.(inOpen := false)
    case SClose => c.(sender := SClosed)
    case RClose => c.(receiver := RClosed)
  }

  function Happen(s: State, o: Outside): (s': State)
    requires CanHappen(s.c, o)
    ensures SameTunnel(s, s')
  {
    var f, r := s.f, s.r;
    match o
    case ClientSends(b) => s.(f := f.(clientOut := f.clientOut + b, clientSent := f.clientSent + b))
    case TargetSends(b) => s.(r := r.(targetOut := r.targetOut + b, targetSent := r.targetSent + b))
    case _ => s.(c := ControlAfter(s.c, o))
  }

  // ---- Runs ----

  predicate Enabled(s: State, l: Label) {
    match l
    case H(h) => CanShake(s, h)
    case K(k) => CanCopy(s, k)
    case O(o) => CanHappen(s.c, o)
  }

  function Apply(s: State, l: Label): (s': State)
    requires Enabled(s, l)
    ensures SameTunnel(s, s')
  {
    match l
    case H(h) => Shake(s, h)
    case K(k) => if IsForward(k) then s.(f := CopyForward(s, k)) else s.(r := CopyReverse(s, k))
    case O(o) => Happen(s, o)
  }

  /** The labels ls lead from s to t. */
  ghost predicate Runs(s: State, ls: seq<Label>, t: State)
    decreases ls
  {
    if ls == [] then s == t
    else Enabled(s, ls[0]) && Runs(Apply(s, ls[0]), ls[1..], t)
  }

  ghost predicate Reachable(mode: Mode, header: Bytes, loopback: Bytes, s: State) {
    exists ls :: Runs(Init(mode, header, loopback), ls, s)
  }
}
