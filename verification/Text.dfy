/**
  The text the two proxies and the loader exchange: decimal numbers, dotted quads and addr:port.
  A string stands for the bytes of its ASCII characters.
 */
module Text {
  import opened Words
  import opened Wrappers

  /** An IPv4 endpoint by its address octets and port number. */
  datatype Target = Target(addr: Quad, port: U16)

  // ---- Decimal numbers ----

  function Digit(d: nat): (c: char)
    requires d < 10
  {
    '0' + d as char
  }

  /** What %d prints for a number that is not negative. */
  function Decimal(n: nat): (s: string)
    ensures |s| > 0
  {
    if n < 10 then [Digit(n)] else Decimal(n / 10) + [Digit(n % 10)]
  }

  predicate IsDigit(c: char) {
    '0' <= c <= '9'
  }

  predicate AllDigits(s: string) {
    forall i :: 0 <= i < |s| ==> IsDigit(s[i])
  }

  /** The number that a string of digits denotes. */
  function DigitsValue(s: string): (n: nat)
    requires AllDigits(s)
  {
    if s == [] then 0 else 10 * DigitsValue(s[..|s| - 1]) + (s[|s| - 1] - '0') as nat
  }

  lemma {:induction false} DecimalRoundTrip(n: nat)
    ensures AllDigits(Decimal(n)) && DigitsValue(Decimal(n)) == n
    ensures n > 0 ==> Decimal(n)[0] != '0'
    ensures n < 10 ==> |Decimal(n)| == 1
  {
    if n >= 10 {
      DecimalRoundTrip(n / 10);
      assert Decimal(n)[..|Decimal(n)| - 1] == Decimal(n / 10);
    } else {
      assert DigitsValue([]) == 0;
      assert Decimal(n)[..0] == [];
    }
  }

  lemma {:induction false} DecimalLength(n: nat, k: nat, bound: nat)
    requires bound == Pow10(k + 1) && n < bound
    ensures |Decimal(n)| <= k + 1
  {
    if n >= 10 {
      if k > 0 {
        DecimalLength(n / 10, k - 1, Pow10(k));
      }
    }
  }

  ghost function Pow10(k: nat): (p: nat) {
    if k == 0 then 1 else 10 * Pow10(k - 1)
  }

  // ---- Fields ----

  /** strings.Split with a one-character separator. */
  function Split(s: string, sep: char): (fields: seq<string>)
    ensures |fields| > 0
  {
    if s == [] then [[]]
    else
      var rest := Split(s[1..], sep);
      if s[0] == sep then [[]] + rest else [[s[0]] + rest[0]] + rest[1..]
  }

  lemma {:induction false} SplitNoSeparator(s: string, sep: char)
    requires sep !in s
    ensures Split(s, sep) == [s]
  {
    if s != [] {
      SplitNoSeparator(s[1..], sep);
      assert [s[0]] + s[1..] == s;
    }
  }

  lemma {:induction false} SplitFirst(s: string, rest: string, sep: char)
    requires sep !in s
    ensures Split(s + [sep] + rest, sep) == [s] + Split(rest, sep)
  {
    var whole := s + [sep] + rest;
    if s == [] {
      assert whole[1..] == rest;
    } else {
      assert whole[1..] == s[1..] + [sep] + rest;
      SplitFirst(s[1..], rest, sep);
      assert [s[0]] + s[1..] == s;
    }
  }

  // ---- Dotted quads and endpoints ----

  /** What net.IP.String prints for an IPv4 address. */
  function PrintQuad(q: Quad): (s: string) {
    Decimal(q.a) + "." + Decimal(q.b) + "." + Decimal(q.c) + "." + Decimal(q.d)
  }

  /** One field of a dotted quad: digits without a superfluous leading zero, at most 255. */
  function ParseOctet(s: string): (r: Option<U8>) {
    if s != [] && AllDigits(s) && (|s| == 1 || s[0] != '0') && DigitsValue(s) < 0x100
    then Some(DigitsValue(s))
    else None
  }

  function ParseQuad(s: string): (r: Option<Quad>) {
    var f := Split(s, '.');
    if |f| != 4 then None
    else
      match (ParseOctet(f[0]), ParseOctet(f[1]), ParseOctet(f[2]), ParseOctet(f[3]))
      case (Some(a), Some(b), Some(c), Some(d)) => Some(Quad(a, b, c, d))
      case _ => None
  }

  /** The addr:port string the sending proxy writes into the tunnel. */
  function PrintTarget(t: Target): (s: string) {
    PrintQuad(t.addr) + ":" + Decimal(t.port)
  }

  /** The dotted-quad part of what net.Dial accepts, with unsigned numeric ports; an empty port is port 0. */
  function ParseTarget(s: string): (r: Option<Target>) {
    var f := Split(s, ':');
    if |f| != 2 || !AllDigits(f[1]) || DigitsValue(f[1]) >= 0x1_0000 then None
    else
      match ParseQuad(f[0])
      case Some(q) => Some(Target(q, DigitsValue(f[1])))
      case None => None
  }

  lemma OctetRoundTrip(n: U8)
    ensures ParseOctet(Decimal(n)) == Some(n)
    ensures '.' !in Decimal(n) && ':' !in Decimal(n)
    ensures |Decimal(n)| <= 3
  {
    DecimalRoundTrip(n);
    DecimalLength(n, 2, 1000);
    NotADigit(Decimal(n));
  }

  lemma NotADigit(s: string)
    requires AllDigits(s)
    ensures '.' !in s && ':' !in s
  {
  }

  lemma QuadRoundTrip(q: Quad)
    ensures ParseQuad(PrintQuad(q)) == Some(q)
    ensures ':' !in PrintQuad(q)
    ensures |PrintQuad(q)| <= 15
  {
    OctetRoundTrip(q.a);
    OctetRoundTrip(q.b);
    OctetRoundTrip(q.c);
    OctetRoundTrip(q.d);
    SplitFour(Decimal(q.a), Decimal(q.b), Decimal(q.c), Decimal(q.d));
  }

  lemma {:induction false} DigitsPrintBack(s: string)
    requires s != [] && AllDigits(s) && (|s| == 1 || s[0] != '0')
    ensures Decimal(DigitsValue(s)) == s
    ensures s[0] != '0' ==> DigitsValue(s) > 0
  {
    var n := |s| - 1;
    assert s == s[..n] + [s[n]];
    if n == 0 {
      assert s[..0] == [] && DigitsValue([]) == 0;
    } else {
      DigitsPrintBack(s[..n]);
    }
  }

  lemma OctetIsDecimal(s: string, n: U8)
    ensures ParseOctet(s) == Some(n) <==> s == Decimal(n)
  {
    OctetRoundTrip(n);
    if ParseOctet(s) == Some(n) {
      DigitsPrintBack(s);
    }
  }

  function Join(fields: seq<string>, sep: char): string
    requires fields != []
  {
    if |fields| == 1 then fields[0] else fields[0] + [sep] + Join(fields[1..], sep)
  }

  lemma {:induction false} SplitThenJoin(s: string, sep: char)
    ensures Join(Split(s, sep), sep) == s
  {
    if s != [] {
      SplitThenJoin(s[1..], sep);
      var rest := Split(s[1..], sep);
      if s[0] == sep {
        assert ([[]] + rest)[1..] == rest;
      } else {
        assert ([[s[0]] + rest[0]] + rest[1..])[1..] == rest[1..];
      }
    }
  }

  lemma JoinFields(f: seq<string>)
    requires |f| == 4
    ensures Join(f, '.') == f[0] + "." + f[1] + "." + f[2] + "." + f[3]
  {
    assert f[1..][1..] == f[2..] && f[2..][1..] == f[3..];
    assert Join(f[3..], '.') == f[3];
    assert Join(f[2..], '.') == f[2] + ['.'] + f[3];
    assert Join(f[1..], '.') == f[1] + ['.'] + (f[2] + ['.'] + f[3]);
  }

  /** The texts that are read as an address are exactly the printed ones: four octets without superfluous zeros. */
  lemma QuadTextIsCanonical(s: string, q: Quad)
    ensures ParseQuad(s) == Some(q) <==> s == PrintQuad(q)
  {
    QuadRoundTrip(q);
    if ParseQuad(s) == Some(q) {
      var f := Split(s, '.');
      SplitThenJoin(s, '.');
      JoinFields(f);
      OctetIsDecimal(f[0], q.a);
      OctetIsDecimal(f[1], q.b);
      OctetIsDecimal(f[2], q.c);
      OctetIsDecimal(f[3], q.d);
    }
  }

  lemma SplitFour(a: string, b: string, c: string, d: string)
    requires '.' !in a && '.' !in b && '.' !in c && '.' !in d
    ensures Split(a + "." + b + "." + c + "." + d, '.') == [a, b, c, d]
  {
    SplitTwo(c, d);
    SplitFirst(b, c + ['.'] + d, '.');
    SplitFirst(a, b + ['.'] + (c + ['.'] + d), '.');
    JoinFour(a, b, c, d);
    assert [a] + ([b] + [c, d]) == [a, b, c, d];
  }

  lemma SplitTwo(c: string, d: string)
    requires '.' !in c && '.' !in d
    ensures Split(c + ['.'] + d, '.') == [c, d]
  {
    SplitNoSeparator(d, '.');
    SplitFirst(c, d, '.');
  }

  lemma JoinFour(a: string, b: string, c: string, d: string)
    ensures a + "." + b + "." + c + "." + d == a + ['.'] + (b + ['.'] + (c + ['.'] + d))
  {
  }

  /** Printing an endpoint and dialling the text reaches the same endpoint; the text fits in 21 bytes. */
  lemma TargetRoundTrip(t: Target)
    ensures ParseTarget(PrintTarget(t)) == Some(t)
    ensures 0 < |PrintTarget(t)| <= 21
  {
    QuadRoundTrip(t.addr);
    DecimalRoundTrip(t.port);
    DecimalLength(t.port, 4, 100000);
    NotADigit(Decimal(t.port));
    SplitNoSeparator(Decimal(t.port), ':');
    SplitFirst(PrintQuad(t.addr), Decimal(t.port), ':');
    assert Split(PrintTarget(t), ':') == [PrintQuad(t.addr), Decimal(t.port)];
  }

  /** A header that loses its last digit is still dialable, and names another port on the same host. */
  lemma TruncatedTargetIsAnotherPort(t: Target)
    requires t.port >= 10
    ensures var s := PrintTarget(t); ParseTarget(s[..|s| - 1]) == Some(Target(t.addr, t.port / 10))
    ensures t.port / 10 != t.port
  {
    var s := PrintTarget(t);
    assert s == PrintTarget(Target(t.addr, t.port / 10)) + [Digit(t.port % 10)];
    assert s[..|s| - 1] == PrintTarget(Target(t.addr, t.port / 10));
    TargetRoundTrip(Target(t.addr, t.port / 10));
  }

  // Dropping digits makes a number smaller.
  lemma {:induction false} PrefixIsSmaller(s: string, k: nat)
    requires AllDigits(s) && k < |s|
    ensures DigitsValue(s) > 0 ==> DigitsValue(s[..k]) < DigitsValue(s)
  {
    var front := s[..|s| - 1];
    if k < |front| {
      assert front[..k] == s[..k];
      PrefixIsSmaller(front, k);
      if DigitsValue(front) == 0 {
        PrefixOfZero(front, k);
      }
    } else {
      assert s[..k] == front;
    }
  }

  lemma {:induction false} PrefixOfZero(s: string, k: nat)
    requires AllDigits(s) && k <= |s| && DigitsValue(s) == 0
    ensures DigitsValue(s[..k]) == 0
  {
    if k < |s| {
      assert s[..|s| - 1][..k] == s[..k];
      PrefixOfZero(s[..|s| - 1], k);
    } else {
      assert s[..k] == s;
    }
  }

  // A printed endpoint up to any digit of its port.
  lemma CutInPort(q: Quad, digits: string)
    requires AllDigits(digits)
    ensures ParseTarget(PrintQuad(q) + ":" + digits) ==
            if DigitsValue(digits) < 0x1_0000 then Some(Target(q, DigitsValue(digits))) else None
  {
    QuadRoundTrip(q);
    NotADigit(digits);
    SplitNoSeparator(digits, ':');
    SplitFirst(PrintQuad(q), digits, ':');
    assert Split(PrintQuad(q) + ":" + digits, ':') == [PrintQuad(q), digits];
  }

  lemma CutInHost(q: Quad, m: nat)
    requires m <= |PrintQuad(q)|
    ensures ParseTarget(PrintQuad(q)[..m]) == None
  {
    QuadRoundTrip(q);
    SplitNoSeparator(PrintQuad(q)[..m], ':');
  }

  lemma CutNumber(n: nat, k: nat)
    requires k < |Decimal(n)|
    ensures AllDigits(Decimal(n)[..k])
    ensures DigitsValue(Decimal(n)[..k]) == n <==> n == 0
    ensures n == 0 ==> |Decimal(n)| == 1
  {
    DecimalRoundTrip(n);
    if n > 0 {
      PrefixIsSmaller(Decimal(n), k);
    } else {
      assert Decimal(n)[..k] == [] && DigitsValue([]) == 0;
    }
  }

  /** A proper prefix of a header names the header's endpoint only if it lacks just the 0 of port 0. */
  lemma PrefixIsAnotherTarget(t: Target, m: nat)
    requires m < |PrintTarget(t)|
    ensures ParseTarget(PrintTarget(t)[..m]) == Some(t) <==> t.port == 0 && m == |PrintTarget(t)| - 1
  {
    var host, port := PrintQuad(t.addr), Decimal(t.port);
    CutNumber(t.port, 0);
    if m <= |host| {
      assert PrintTarget(t)[..m] == host[..m];
      CutInHost(t.addr, m);
    } else {
      var k := m - |host| - 1;
      assert PrintTarget(t)[..m] == host + ":" + port[..k];
      CutNumber(t.port, k);
      CutInPort(t.addr, port[..k]);
    }
  }

  // ---- strconv.Atoi ----

  /** strconv.Atoi on a 64-bit host: an optional sign and digits that fit an int64. */
  function Atoi(s: string): (r: Option<int>) {
    var signed := s != [] && (s[0] == '-' || s[0] == '+');
    var digits := if signed then s[1..] else s;
    if digits == [] || !AllDigits(digits) then None
    else
      var n := if signed && s[0] == '-' then -(DigitsValue(digits) as int) else DigitsValue(digits);
      if -0x8000_0000_0000_0000 <= n < 0x8000_0000_0000_0000 then Some(n) else None
  }

  lemma AtoiRoundTrip(n: nat)
    ensures Atoi(Decimal(n)) == if n < 0x8000_0000_0000_0000 then Some(n) else None
    ensures Atoi("-" + Decimal(n)) == if n <= 0x8000_0000_0000_0000 then Some(-(n as int)) else None
    ensures '/' !in Decimal(n)
  {
    DecimalRoundTrip(n);
    assert ("-" + Decimal(n))[1..] == Decimal(n);
    assert IsDigit(Decimal(n)[0]);
  }

  lemma QuadHasNoSlash(q: Quad)
    ensures '/' !in PrintQuad(q)
  {
    DecimalRoundTrip(q.a);
    DecimalRoundTrip(q.b);
    DecimalRoundTrip(q.c);
    DecimalRoundTrip(q.d);
  }
}
