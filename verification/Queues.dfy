/**
  The byte queue between two ends of a connection. A queue keeps the writes it was given, so that the same
  queue can be read as a stream or record by record.
 */
module Queues {

  /** One character stands for one byte. */
  type Bytes = string

  /** The unread writes, oldest first. */
  type Queue = seq<Bytes>

  /**
    Stream: a read returns any non-empty prefix of the unread bytes that fits the buffer (plain TCP).
    Records: a read returns what the buffer holds of the oldest unread record, and never more than one record
    (the behaviour assumed of the TLS library).
   */
  datatype Mode = Stream | Records

  function Flat(q: Queue): Bytes {
    if q == [] then [] else q[0] + Flat(q[1..])
  }

  ghost predicate NoEmptyWrites(q: Queue) {
    forall i :: 0 <= i < |q| ==> q[i] != []
  }

  function Drop(q: Queue, n: nat): Queue
    requires n <= |Flat(q)|
  {
    if n == 0 then q
    else if n < |q[0]| then [q[0][n..]] + q[1..]
    else Drop(q[1..], n - |q[0]|)
  }

  predicate CanRead(mode: Mode, q: Queue, size: nat, n: nat) {
    match mode
    case Stream => 1 <= n <= size && n <= |Flat(q)|
    case Records => q != [] && 1 <= n && n == if |q[0]| <= size then |q[0]| else size
  }

  lemma {:induction false} FlatAppend(q: Queue, b: Bytes)
    ensures Flat(q + [b]) == Flat(q) + b
  {
    if q == [] {
      assert q + [b] == [b];
      assert Flat([]) == [];
    } else {
      assert (q + [b])[1..] == q[1..] + [b];
      FlatAppend(q[1..], b);
    }
  }

  lemma {:induction false} FlatDrop(q: Queue, n: nat)
    requires n <= |Flat(q)| && NoEmptyWrites(q)
    ensures Flat(Drop(q, n)) == Flat(q)[n..]
    ensures NoEmptyWrites(Drop(q, n))
  {
    if n > 0 {
      if n < |q[0]| {
        assert Drop(q, n)[1..] == q[1..];
      } else {
        FlatDrop(q[1..], n - |q[0]|);
      }
    }
  }

  lemma ReadFits(mode: Mode, q: Queue, size: nat, n: nat)
    requires CanRead(mode, q, size, n)
    ensures q != [] && 1 <= n <= size && n <= |Flat(q)|
  {
  }

  // A record that fits the buffer is read whole.
  lemma RecordReadsWhole(q: Queue, size: nat, n: nat)
    requires CanRead(Records, q, size, n) && |q[0]| <= size
    ensures Flat(q)[..n] == q[0]
  {
  }

  // Whatever has been written can be read.
  lemma Readable(mode: Mode, q: Queue, size: nat) returns (n: nat)
    requires q != [] && NoEmptyWrites(q) && size > 0
    ensures CanRead(mode, q, size, n)
  {
    n := if mode.Stream? then 1 else if |q[0]| <= size then |q[0]| else size;
  }

  // Moving the front of one segment to the back of the segment before it.
  lemma Shift(a: Bytes, b: Bytes, rest: Bytes, n: nat)
    requires n <= |b|
    ensures (a + b[..n]) + (b[n..] + rest) == a + (b + rest)
  {
  }
}
