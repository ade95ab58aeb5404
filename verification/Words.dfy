/**
  Machine words as the kernel hooks and the loader see them on a little-endian host: byte swaps,
  fields in network order, bitwise conjunction, and the CIDR mask test. A word is a number with its
  width stated; every truncation is written out.
 */
module Words {

  type U8 = x: int | 0 <= x < 0x100
  type U16 = x: int | 0 <= x < 0x1_0000
  type U32 = x: int | 0 <= x < 0x1_0000_0000
  type U64 = x: int | 0 <= x < 0x1_0000_0000_0000_0000

  /** A C int. */
  type I32 = x: int | -0x8000_0000 <= x < 0x8000_0000

  // ---- Addresses and ports ----

  /** The four octets of an IPv4 address in the order they are written and sent. */
  datatype Quad = Quad(a: U8, b: U8, c: U8, d: U8)

  /** The address as a number, first octet most significant. */
  function HostOrder(q: Quad): (x: U32) {
    q.a * 0x100_0000 + q.b * 0x1_0000 + q.c * 0x100 + q.d
  }

  /** What a little-endian load of the four octets yields. */
  function Load32(q: Quad): (x: U32) {
    HostOrder(Quad(q.d, q.c, q.b, q.a))
  }

  /** The octets a little-endian store of x lays out. */
  function Store32(x: U32): (q: Quad) {
    Quad(x % 0x100, x / 0x100 % 0x100, x / 0x1_0000 % 0x100, x / 0x100_0000)
  }

  /** bpf_htonl and bpf_ntohl. */
  function Swap32(x: U32): (y: U32) {
    x % 0x100 * 0x100_0000 + x / 0x100 % 0x100 * 0x1_0000 + x / 0x1_0000 % 0x100 * 0x100 + x / 0x100_0000
  }

  /** bpf_htons and bpf_ntohs. */
  function Swap16(x: U16): (y: U16) {
    x % 0x100 * 0x100 + x / 0x100
  }

  /** Assigning a wider unsigned value to a __u16. */
  function Low16(x: nat): (y: U16) {
    x % 0x1_0000
  }

  /** Assigning a wider unsigned value to a __u32. */
  function Low32(x: nat): (y: U32) {
    x % 0x1_0000_0000
  }

  /** A C int compared with an unsigned 64-bit value is converted modulo 2^64. */
  function ToU64(x: I32): (y: U64) {
    if x < 0 then x + 0x1_0000_0000_0000_0000 else x
  }

  // The comparison with a pid that os.Getpid returned is an ordinary equality.
  lemma PidTest(x: I32, pid: U64)
    requires pid < 0x8000_0000
    ensures ToU64(x) == pid <==> x == pid
  {
  }

  // The bytes of a number given by its octets, least significant last.
  lemma BytesOfQuad(q: Quad)
    ensures HostOrder(q) % 0x100 == q.d
    ensures HostOrder(q) / 0x100 % 0x100 == q.c
    ensures HostOrder(q) / 0x1_0000 % 0x100 == q.b
    ensures HostOrder(q) / 0x100_0000 == q.a
  {
    var x := HostOrder(q);
    assert x / 0x100 == q.a * 0x1_0000 + q.b * 0x100 + q.c;
    assert x / 0x1_0000 == x / 0x100 / 0x100 == q.a * 0x100 + q.b;
    assert x / 0x100_0000 == x / 0x1_0000 / 0x100 == q.a;
  }

  // Every word is the number of the octets it is made of.
  lemma QuadOfWord(x: U32)
    ensures HostOrder(Quad(x / 0x100_0000, x / 0x1_0000 % 0x100, x / 0x100 % 0x100, x % 0x100)) == x
  {
    assert x / 0x100 / 0x100 == x / 0x1_0000;
    assert x / 0x1_0000 / 0x100 == x / 0x100_0000;
  }

  // Loading the octets and swapping is the address as a number.
  lemma LoadThenSwap(q: Quad)
    ensures Swap32(Load32(q)) == HostOrder(q)
  {
    BytesOfQuad(Quad(q.d, q.c, q.b, q.a));
  }

  // Swapping the number and storing it lays the octets out in network order.
  lemma SwapThenStore(q: Quad)
    ensures Store32(Swap32(HostOrder(q))) == q
  {
    BytesOfQuad(q);
    BytesOfQuad(Quad(q.d, q.c, q.b, q.a));
  }

  lemma StoreThenHostOrder(x: U32)
    ensures HostOrder(Store32(Swap32(x))) == x
  {
    QuadOfWord(x);
    SwapThenStore(Quad(x / 0x100_0000, x / 0x1_0000 % 0x100, x / 0x100 % 0x100, x % 0x100));
  }

  lemma SwapTwice(x: U32)
    ensures Swap32(Swap32(x)) == x
  {
    QuadOfWord(x);
    var q := Quad(x / 0x100_0000, x / 0x1_0000 % 0x100, x / 0x100 % 0x100, x % 0x100);
    LoadThenSwap(q);
    LoadThenSwap(Quad(q.d, q.c, q.b, q.a));
  }

  /** The 32-bit user_port field that carries a port: the 16-bit network-order value, zero-extended. */
  function PortField(port: U16): (x: U32) {
    Swap16(port)
  }

  // Swapping 32 bits and shifting right by 16 reads the port that the field's low half carries.
  lemma SwapThenShift(userPort: U32)
    ensures Low16(Swap32(userPort) / 0x1_0000) == Swap16(Low16(userPort))
  {
    var hi, lo, upper := userPort / 0x100 % 0x100, userPort % 0x100, userPort / 0x1_0000;
    assert userPort / 0x1_0000 == userPort / 0x100 / 0x100;
    LowHalf(upper, hi, lo);
    UpperHalf(lo, hi, upper % 0x100 * 0x100 + userPort / 0x100_0000);
    SwapBytes(hi, lo);
  }

  lemma LowHalf(upper: nat, hi: U8, lo: U8)
    ensures (upper * 0x1_0000 + hi * 0x100 + lo) % 0x1_0000 == hi * 0x100 + lo
  {
  }

  lemma UpperHalf(hi: U8, lo: U8, rest: U16)
    ensures (hi * 0x100_0000 + lo * 0x1_0000 + rest) / 0x1_0000 == hi * 0x100 + lo
  {
  }

  lemma SwapBytes(hi: U8, lo: U8)
    ensures Swap16(hi * 0x100 + lo) == lo * 0x100 + hi
  {
  }

  // Shifting left by 16 and swapping 32 bits writes the field.
  lemma ShiftThenSwap(port: U16)
    ensures Swap32(Low32(port * 0x1_0000)) == PortField(port)
  {
    SwapOfShifted(port / 0x100, port % 0x100);
  }

  lemma SwapOfShifted(hi: U8, lo: U8)
    ensures Swap32(Low32((hi * 0x100 + lo) * 0x1_0000)) == lo * 0x100 + hi
  {
    var q := Quad(0, 0, lo, hi);
    LoadThenSwap(q);
    assert Load32(q) == (hi * 0x100 + lo) * 0x1_0000;
    WordIsItself(Load32(q));
  }

  lemma WordIsItself(x: U32)
    ensures Low32(x) == x
  {
  }

  // The field reads back as the port.
  lemma PortFieldReadsBack(port: U16)
    ensures Swap16(Low16(PortField(port))) == port
  {
    Swap16Twice(port);
  }

  lemma Swap16Twice(x: U16)
    ensures Swap16(Swap16(x)) == x && Low16(x) == x && Low16(Swap16(x)) == Swap16(x)
  {
    var hi, lo := x / 0x100, x % 0x100;
    assert x == hi * 0x100 + lo;
    SwapBytes(hi, lo);
    SwapBytes(lo, hi);
  }

  // ---- Bitwise conjunction and the mask test ----

  function Pow2(k: nat): (p: nat)
    ensures p > 0
  {
    if k == 0 then 1 else 2 * Pow2(k - 1)
  }

  /** Bitwise conjunction of two unsigned numbers. */
  function And(x: nat, y: nat): nat {
    if x == 0 || y == 0 then 0 else x % 2 * (y % 2) + 2 * And(x / 2, y / 2)
  }

  lemma {:induction false} AndWithOnes(x: nat, n: nat)
    requires x < Pow2(n)
    ensures And(x, Pow2(n) - 1) == x
  {
    if n > 0 && x > 0 {
      AndWithOnes(x / 2, n - 1);
    }
  }

  lemma AndEven(x: nat, y: nat)
    ensures And(x, 2 * y) == 2 * And(x / 2, y)
  {
    assert 2 * y % 2 == 0 && 2 * y / 2 == y;
  }

  lemma AndDoubled(x: nat, h: nat, r: int)
    requires And(x / 2, h) == x / 2 - r
    ensures And(x, 2 * h) == x - (x % 2 + 2 * r)
  {
    AndEven(x, h);
  }

  lemma AndClearsOneMore(x: nat, h: nat, p: nat)
    requires p > 0 && And(x / 2, h) == x / 2 - x / 2 % p
    ensures And(x, 2 * h) == x - x % (2 * p)
  {
    AndDoubled(x, h, x / 2 % p);
    HalveModulo(x, p);
  }

  lemma {:induction false} AndClearsLowBits(x: nat, n: nat, k: nat)
    requires k <= n && x < Pow2(n)
    ensures Pow2(k) <= Pow2(n)
    ensures And(x, Pow2(n) - Pow2(k)) == x - x % Pow2(k)
  {
    Pow2Monotonic(k, n);
    if k == 0 {
      AndWithOnes(x, n);
    } else {
      var p, q := Pow2(k - 1), Pow2(n - 1);
      AndClearsLowBits(x / 2, n - 1, k - 1);
      AndClearsOneMore(x, q - p, p);
      assert Pow2(k) == 2 * p && Pow2(n) - Pow2(k) == 2 * (q - p);
    }
  }

  lemma {:induction false} Pow2Monotonic(j: nat, k: nat)
    requires j <= k
    ensures Pow2(j) <= Pow2(k)
  {
    if j < k {
      Pow2Monotonic(j, k - 1);
    }
  }

  lemma HalveModulo(x: nat, p: nat)
    requires p > 0
    ensures x % (2 * p) == x % 2 + 2 * (x / 2 % p)
  {
    var q, r := x / 2 / p, x / 2 % p;
    assert x == (2 * p) * q + (2 * r + x % 2);
    QuotientIsUnique(x, 2 * p, q, 2 * r + x % 2);
  }

  lemma QuotientIsUnique(x: nat, d: nat, q: nat, r: nat)
    requires x == d * q + r && r < d
    ensures x / d == q && x % d == r
  {
    var q', r' := x / d, x % d;
    assert x == d * q' + r';
    if q' < q {
      DistinctMultiples(d, q', q);
    } else if q < q' {
      DistinctMultiples(d, q, q');
    }
  }

  lemma DistinctMultiples(d: nat, m: nat, n: nat)
    requires m < n
    ensures d * m + d <= d * n
  {
    assert d * (m + 1) <= d * n;
  }

  lemma Pow2Of32()
    ensures Pow2(32) == 0x1_0000_0000
  {
    assert Pow2(8) == 0x100;
    assert Pow2(16) == 0x1_0000;
    assert Pow2(24) == 0x100_0000;
  }

  /** The netmask the hook computes, (-1) << (32 - bits) as an unsigned word; a shift by 32 is undefined in C. */
  function Mask(bits: U16): (m: U32)
    requires 1 <= bits <= 32
  {
    Pow2Monotonic(32 - bits, 32);
    Pow2Of32();
    Pow2(32) - Pow2(32 - bits)
  }

  /** The 2^(32-bits) addresses from network on; none when network is not the first address of a block. */
  ghost predicate InBlock(ip: U32, network: U32, bits: U16)
    requires 1 <= bits <= 32
  {
    network % Pow2(32 - bits) == 0 && network <= ip < network + Pow2(32 - bits)
  }

  /** The mask comparison is the range test of section 3.1 of RFC 4632. */
  lemma MaskTestIsRangeTest(ip: U32, network: U32, bits: U16)
    requires 1 <= bits <= 32
    ensures And(ip, Mask(bits)) == network <==> InBlock(ip, network, bits)
  {
    assert And(ip, Mask(bits)) == ip - ip % Pow2(32 - bits) by {
      Pow2Of32();
      AndClearsLowBits(ip, 32, 32 - bits);
    }
    StartOfBlock(ip, network, Pow2(32 - bits));
  }

  lemma StartOfBlock(ip: nat, network: nat, size: nat)
    requires size > 0
    ensures ip - ip % size == network <==> network % size == 0 && network <= ip < network + size
  {
    if ip - ip % size == network {
      assert network == size * (ip / size);
      QuotientIsUnique(network, size, ip / size, 0);
    }
    if network % size == 0 && network <= ip < network + size {
      QuotientIsUnique(ip, size, network / size, ip - network);
    }
  }
}
