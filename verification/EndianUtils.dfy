/**
 * `htonll` and `ntohll` (little-endian branch) on 64-bit words, and the memory
 * image of a word, which is what travels over the wire.
 */
module EndianUtils {
  /** The C library's `htonl`/`ntohl` on a little-endian machine: four bytes reversed. */
  function Swap32(x: bv32): bv32 {
    ((x & 0xFF) << 24) | ((x & 0xFF00) << 8) | ((x >> 8) & 0xFF00) | (x >> 24)
  }

  function Htonll(value: bv64): bv64 {
    ((Swap32((value & 0xFFFF_FFFF) as bv32) as bv64) << 32) | (Swap32((value >> 32) as bv32) as bv64)
  }

  function Ntohll(value: bv64): bv64 {
    ((Swap32((value & 0xFFFF_FFFF) as bv32) as bv64) << 32) | (Swap32((value >> 32) as bv32) as bv64)
  }

  /** The eight bytes of a word, least significant first: how a little-endian machine stores it. */
  function Memory(v: bv64): (m: seq<bv8>)
    ensures |m| == 8
  {
    [ (v & 0xFF) as bv8, ((v >> 8) & 0xFF) as bv8, ((v >> 16) & 0xFF) as bv8, ((v >> 24) & 0xFF) as bv8,
      ((v >> 32) & 0xFF) as bv8, ((v >> 40) & 0xFF) as bv8, ((v >> 48) & 0xFF) as bv8, ((v >> 56) & 0xFF) as bv8 ]
  }

  /** The word a little-endian machine loads from eight bytes of memory. */
  function Load(m: seq<bv8>): bv64
    requires |m| == 8
  {
    (m[0] as bv64) | ((m[1] as bv64) << 8) | ((m[2] as bv64) << 16) | ((m[3] as bv64) << 24) |
    ((m[4] as bv64) << 32) | ((m[5] as bv64) << 40) | ((m[6] as bv64) << 48) | ((m[7] as bv64) << 56)
  }

  function Reverse(m: seq<bv8>): (r: seq<bv8>)
    requires |m| == 8
    ensures |r| == 8
  {
    [m[7], m[6], m[5], m[4], m[3], m[2], m[1], m[0]]
  }

  lemma LoadMemory(v: bv64)
    ensures Load(Memory(v)) == v
  {}

  lemma MemoryLoad(m: seq<bv8>)
    requires |m| == 8
    ensures Memory(Load(m)) == m
  {}

  /** `htonll` turns memory order into network byte order: most significant byte first. */
  lemma NetworkOrder(v: bv64)
    ensures Memory(Htonll(v)) == Reverse(Memory(v))
  {
  }

  /** One word in memory, before and after. */
  lemma ByteOrderExample()
    ensures Memory(0x0102_0304_0506_0708) == [8, 7, 6, 5, 4, 3, 2, 1]
    ensures Htonll(0x0102_0304_0506_0708) == 0x0807_0605_0403_0201
    ensures Load([8, 7, 6, 5, 4, 3, 2, 1]) == 0x0102_0304_0506_0708
  {}

  lemma SameReversal(v: bv64)
    ensures Ntohll(v) == Htonll(v)
  {}

  lemma ReverseTwice(m: seq<bv8>)
    requires |m| == 8
    ensures Reverse(Reverse(m)) == m
  {}

  /** Reversing twice restores the word. */
  lemma MutualInverses(v: bv64)
    ensures Ntohll(Htonll(v)) == v && Htonll(Ntohll(v)) == v
  {
    hide Htonll, Ntohll, Memory, Load, Reverse;
    SameReversal(v);
    SameReversal(Htonll(v));
    NetworkOrder(v);
    NetworkOrder(Htonll(v));
    ReverseTwice(Memory(v));
    LoadMemory(v);
    LoadMemory(Htonll(Htonll(v)));
  }

  // ---------- the number a byte and a word hold ----------

  /** The eight bits of a byte, least significant first. */
  datatype Bits = Bits(b0: bool, b1: bool, b2: bool, b3: bool, b4: bool, b5: bool, b6: bool, b7: bool)

  function Join(bit: bool, n: nat): nat { (if bit then 1 else 0) + 2 * n }

  function BitsOfNumber(n: nat): Bits {
    var n1 := n / 2;
    var n2 := n1 / 2;
    var n3 := n2 / 2;
    var n4 := n3 / 2;
    var n5 := n4 / 2;
    var n6 := n5 / 2;
    Bits(n % 2 == 1, n1 % 2 == 1, n2 % 2 == 1, n3 % 2 == 1, n4 % 2 == 1, n5 % 2 == 1, n6 % 2 == 1, n6 / 2 % 2 == 1)
  }

  function NumberOfBits(b: Bits): (n: nat)
    ensures n < 0x100
  {
    Join(b.b0, Join(b.b1, Join(b.b2, Join(b.b3, Join(b.b4, Join(b.b5, Join(b.b6, Join(b.b7, 0))))))))
  }

  function BitsOfByte(v: bv8): Bits {
    Bits(v & 1 != 0, v & 2 != 0, v & 4 != 0, v & 8 != 0, v & 16 != 0, v & 32 != 0, v & 64 != 0, v & 128 != 0)
  }

  function ByteOfBits(b: Bits): bv8 {
    (if b.b0 then 1 else 0) | (if b.b1 then 2 else 0) | (if b.b2 then 4 else 0) | (if b.b3 then 8 else 0) |
    (if b.b4 then 16 else 0) | (if b.b5 then 32 else 0) | (if b.b6 then 64 else 0) | (if b.b7 then 128 else 0)
  }

  /** The byte that holds `n`. */
  function Byte(n: nat): bv8 { ByteOfBits(BitsOfNumber(n)) }

  /** The number a byte holds. */
  function ByteValue(v: bv8): (n: nat)
    ensures n < 0x100
  {
    NumberOfBits(BitsOfByte(v))
  }

  lemma BitsRoundTrip(b: Bits, v: bv8)
    ensures BitsOfByte(ByteOfBits(b)) == b && ByteOfBits(BitsOfByte(v)) == v
  {}

  lemma JoinParts(bit: bool, n: nat)
    ensures Join(bit, n) / 2 == n && (Join(bit, n) % 2 == 1 <==> bit)
    ensures n == Join(n % 2 == 1, n / 2)
  {}

  lemma NumberThere(b: Bits)
    ensures BitsOfNumber(NumberOfBits(b)) == b
  {
    hide Join;
    var m7 := Join(b.b7, 0);
    var m6 := Join(b.b6, m7);
    var m5 := Join(b.b5, m6);
    var m4 := Join(b.b4, m5);
    var m3 := Join(b.b3, m4);
    var m2 := Join(b.b2, m3);
    var m1 := Join(b.b1, m2);
    JoinParts(b.b7, 0);
    JoinParts(b.b6, m7);
    JoinParts(b.b5, m6);
    JoinParts(b.b4, m5);
    JoinParts(b.b3, m4);
    JoinParts(b.b2, m3);
    JoinParts(b.b1, m2);
    JoinParts(b.b0, m1);
  }

  lemma NumberBack(n: nat)
    requires n < 0x100
    ensures NumberOfBits(BitsOfNumber(n)) == n
  {
    hide Join;
    var n1 := n / 2;
    var n2 := n1 / 2;
    var n3 := n2 / 2;
    var n4 := n3 / 2;
    var n5 := n4 / 2;
    var n6 := n5 / 2;
    JoinParts(true, n);
    JoinParts(true, n1);
    JoinParts(true, n2);
    JoinParts(true, n3);
    JoinParts(true, n4);
    JoinParts(true, n5);
    JoinParts(true, n6);
    JoinParts(true, n6 / 2);
    assert n6 / 2 / 2 == 0;
  }

  lemma ByteRoundTrip(n: nat, v: bv8)
    ensures n < 0x100 ==> ByteValue(Byte(n)) == n
    ensures Byte(ByteValue(v)) == v
  {
    hide BitsOfNumber, NumberOfBits, BitsOfByte, ByteOfBits;
    BitsRoundTrip(BitsOfNumber(n), v);
    NumberThere(BitsOfByte(v));
    if n < 0x100 { NumberBack(n); }
  }

  /** Base-256 value of a string of digits, least significant first. */
  function Value(m: seq<bv8>): nat {
    if m == [] then 0 else ByteValue(m[0]) + 0x100 * Value(m[1..])
  }

  function Power256(k: nat): nat {
    if k == 0 then 1 else 0x100 * Power256(k - 1)
  }

  /** The base-256 digits of a number below 256^k, least significant first. */
  function Digits(n: nat, k: nat): (m: seq<bv8>)
    ensures |m| == k
  {
    if k == 0 then [] else [Byte(n % 0x100)] + Digits(n / 0x100, k - 1)
  }

  /** The `uint64_t` that holds `n`. */
  function Word(n: nat): bv64 { Load(Digits(n, 8)) }

  /** The number a `uint64_t` holds. */
  function WordValue(v: bv64): nat { Value(Memory(v)) }

  lemma {:induction false} DigitsRoundTrip(n: nat, k: nat)
    requires n < Power256(k)
    ensures Value(Digits(n, k)) == n
  {
    hide Byte, ByteValue;
    if k > 0 {
      DigitsRoundTrip(n / 0x100, k - 1);
      ByteRoundTrip(n % 0x100, 0);
      assert Digits(n, k)[1..] == Digits(n / 0x100, k - 1);
    }
  }

  lemma WordRoundTrip(n: nat)
    requires n < 0x1_0000_0000_0000_0000
    ensures WordValue(Word(n)) == n
  {
    assert Power256(4) == 0x1_0000_0000;
    assert Power256(8) == 0x1_0000_0000_0000_0000;
    DigitsRoundTrip(n, 8);
    MemoryLoad(Digits(n, 8));
  }

  /** The eight digits of a number, least significant first. */
  lemma EightDigits(n: nat)
    ensures var d := Digits(n, 8);
            && ByteValue(d[0]) == n % 0x100
            && ByteValue(d[1]) == n / 0x100 % 0x100
            && ByteValue(d[2]) == n / 0x1_0000 % 0x100
            && ByteValue(d[3]) == n / 0x100_0000 % 0x100
            && ByteValue(d[4]) == n / 0x1_0000_0000 % 0x100
            && ByteValue(d[5]) == n / 0x100_0000_0000 % 0x100
            && ByteValue(d[6]) == n / 0x1_0000_0000_0000 % 0x100
            && ByteValue(d[7]) == n / 0x100_0000_0000_0000 % 0x100
  {
    hide *;
    FourDigits(n, 8);
    FourDigits(n / 0x1_0000_0000, 4);
    HighQuotients(n);
  }

  lemma FourDigits(n: nat, k: nat)
    requires k >= 4
    ensures var d := Digits(n, k);
            && ByteValue(d[0]) == n % 0x100 && ByteValue(d[1]) == n / 0x100 % 0x100
            && ByteValue(d[2]) == n / 0x1_0000 % 0x100 && ByteValue(d[3]) == n / 0x100_0000 % 0x100
            && d[4..] == Digits(n / 0x1_0000_0000, k - 4)
  {
    hide *;
    FirstDigit(n, k);
    FirstDigit(n / 0x100, k - 1);
    FirstDigit(n / 0x1_0000, k - 2);
    FirstDigit(n / 0x100_0000, k - 3);
    assert n / 0x100 / 0x100 == n / 0x1_0000 && n / 0x1_0000 / 0x100 == n / 0x100_0000;
    assert n / 0x100_0000 / 0x100 == n / 0x1_0000_0000;
    assert Digits(n, k)[1..][1..][1..][1..] == Digits(n, k)[4..];
  }

  lemma HighQuotients(n: nat)
    ensures var h := n / 0x1_0000_0000;
            && h / 0x100 == n / 0x100_0000_0000
            && h / 0x1_0000 == n / 0x1_0000_0000_0000
            && h / 0x100_0000 == n / 0x100_0000_0000_0000
  {}

  lemma FirstDigit(n: nat, k: nat)
    requires k > 0
    ensures ByteValue(Digits(n, k)[0]) == n % 0x100 && Digits(n, k)[1..] == Digits(n / 0x100, k - 1)
  {
    hide Byte, ByteValue;
    ByteRoundTrip(n % 0x100, 0);
  }
}
