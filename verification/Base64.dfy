/**
  Base64 without padding (sections 3.2 and 4 of RFC 4648), with zero pad bits
  required on decoding (section 3.5), and the 32-byte public keys written in it.
 */
module Base64 {
  import opened Prelude

  type Sextet = v: int | 0 <= v < 64

  function Digit(v: Sextet): char {
    if v < 26 then ('A' as int + v) as char
    else if v < 52 then ('a' as int + (v - 26)) as char
    else if v < 62 then ('0' as int + (v - 52)) as char
    else if v == 62 then '+'
    else '/'
  }

  /** Value of a character of the alphabet. */
  function DigitValue(c: char): Option<Sextet> {
    if 'A' <= c <= 'Z' then Some(c as int - 'A' as int)
    else if 'a' <= c <= 'z' then Some(c as int - 'a' as int + 26)
    else if '0' <= c <= '9' then Some(c as int - '0' as int + 52)
    else if c == '+' then Some(62)
    else if c == '/' then Some(63)
    else None
  }

  lemma DigitReads(v: Sextet)
    ensures DigitValue(Digit(v)) == Some(v)
  {
  }

  lemma DigitWrites(c: char)
    ensures DigitValue(c).Some? ==> Digit(DigitValue(c).value) == c
  {
  }

  /** Three bytes as four sextets. */
  function Split3(a: byte, b: byte, c: byte): (d: (Sextet, Sextet, Sextet, Sextet))
    ensures Join4(d.0, d.1, d.2, d.3) == (a, b, c)
    ensures b == 0 && c == 0 ==> d.1 % 16 == 0 && d.2 == 0 && d.3 == 0
    ensures c == 0 ==> d.2 % 4 == 0 && d.3 == 0
  {
    (a / 4, (a % 4) * 16 + b / 16, (b % 16) * 4 + c / 64, c % 64)
  }

  /** Four sextets as three bytes. */
  function Join4(p: Sextet, q: Sextet, r: Sextet, s: Sextet): (byte, byte, byte) {
    (p * 4 + q / 16, (q % 16) * 16 + r / 4, (r % 4) * 64 + s)
  }

  lemma SplitOfJoin(p: Sextet, q: Sextet, r: Sextet, s: Sextet)
    ensures var t := Join4(p, q, r, s); Split3(t.0, t.1, t.2) == (p, q, r, s)
  {
    Digits(p, 4, q / 16);
    Digits(q % 16, 16, r / 4);
    Digits(r % 4, 64, s);
  }

  lemma Digits(high: nat, base: nat, low: nat)
    requires base in {4, 16, 64} && low < base
    ensures (high * base + low) / base == high && (high * base + low) % base == low
  {
  }

  function EncodeGroup(d: (Sextet, Sextet, Sextet, Sextet)): (s: string)
    ensures |s| == 4
  {
    [Digit(d.0), Digit(d.1), Digit(d.2), Digit(d.3)]
  }

  function Encode(b: seq<byte>): string {
    if |b| == 0 then ""
    else if |b| == 1 then EncodeGroup(Split3(b[0], 0, 0))[..2]
    else if |b| == 2 then EncodeGroup(Split3(b[0], b[1], 0))[..3]
    else EncodeGroup(Split3(b[0], b[1], b[2])) + Encode(b[3..])
  }

  /** The sextet at `k`; a missing one counts as zero. */
  function SextetAt(s: string, k: nat): Option<Sextet> {
    if k < |s| then DigitValue(s[k]) else Some(0)
  }

  /** The bytes of the first, possibly partial, group. */
  function DecodeGroup(s: string): Option<(byte, byte, byte)> {
    var p, q, r, t := SextetAt(s, 0), SextetAt(s, 1), SextetAt(s, 2), SextetAt(s, 3);
    if p.None? || q.None? || r.None? || t.None? then None
    else Some(Join4(p.value, q.value, r.value, t.value))
  }

  function Decode(s: string): Option<seq<byte>> {
    if |s| == 0 then Some([])
    else if |s| == 1 then None
    else
      match DecodeGroup(s)
      case None => None
      case Some(t) =>
        if |s| == 2 then (if t.1 == 0 then Some([t.0]) else None)
        else if |s| == 3 then (if t.2 == 0 then Some([t.0, t.1]) else None)
        else
          match Decode(s[4..])
          case None => None
          case Some(rest) => Some([t.0, t.1, t.2] + rest)
  }

  lemma GroupReads(d: (Sextet, Sextet, Sextet, Sextet), n: nat, rest: string)
    requires 2 <= n <= 4 && (n < 4 ==> rest == "")
    requires (n < 4 ==> d.3 == 0) && (n < 3 ==> d.2 == 0)
    ensures DecodeGroup(EncodeGroup(d)[..n] + rest) == Some(Join4(d.0, d.1, d.2, d.3))
  {
    DigitReads(d.0);
    DigitReads(d.1);
    DigitReads(d.2);
    DigitReads(d.3);
  }

  lemma ShortReads(b: seq<byte>)
    requires |b| < 3
    ensures Decode(Encode(b)) == Some(b)
  {
    hide Split3, Join4, Digit, DigitValue, DecodeGroup, EncodeGroup;
    if |b| == 1 {
      var d := Split3(b[0], 0, 0);
      var s := EncodeGroup(d)[..2];
      GroupReads(d, 2, "");
      assert s + "" == s == Encode(b);
      assert b == [b[0]];
    } else if |b| == 2 {
      var d := Split3(b[0], b[1], 0);
      var s := EncodeGroup(d)[..3];
      GroupReads(d, 3, "");
      assert s + "" == s == Encode(b);
      assert b == [b[0], b[1]];
    }
  }

  lemma GroupBeforeRest(x: byte, y: byte, z: byte, rest: string)
    ensures Decode(EncodeGroup(Split3(x, y, z)) + rest)
         == match Decode(rest) case None => None case Some(r) => Some([x, y, z] + r)
  {
    hide Split3, Join4, Digit, DigitValue, DecodeGroup, EncodeGroup;
    var d := Split3(x, y, z);
    var s := EncodeGroup(d) + rest;
    assert EncodeGroup(d)[..4] == EncodeGroup(d);
    GroupReads(d, 4, rest);
    assert s[4..] == rest;
  }

  lemma EncodeLong(b: seq<byte>)
    requires |b| >= 3
    ensures Encode(b) == EncodeGroup(Split3(b[0], b[1], b[2])) + Encode(b[3..])
  {
    hide Split3, EncodeGroup;
  }

  /** Decoding undoes encoding. */
  lemma {:induction false} DecodeOfEncode(b: seq<byte>)
    ensures Decode(Encode(b)) == Some(b)
  {
    hide Encode, Decode, Split3, EncodeGroup;
    if |b| < 3 {
      ShortReads(b);
    } else {
      EncodeLong(b);
      GroupBeforeRest(b[0], b[1], b[2], Encode(b[3..]));
      DecodeOfEncode(b[3..]);
      assert b == [b[0], b[1], b[2]] + b[3..];
    }
  }

  lemma GroupWrites(s: string, n: nat)
    requires 2 <= n <= 4 && (if n < 4 then |s| == n else |s| >= 4) && DecodeGroup(s).Some?
    ensures var t := DecodeGroup(s).value; EncodeGroup(Split3(t.0, t.1, t.2))[..n] == s[..n]
  {
    var p, q, r, t := SextetAt(s, 0).value, SextetAt(s, 1).value, SextetAt(s, 2).value, SextetAt(s, 3).value;
    SplitOfJoin(p, q, r, t);
    DigitWrites(s[0]);
    DigitWrites(s[1]);
    if n > 2 {
      DigitWrites(s[2]);
    }
    if n > 3 {
      DigitWrites(s[3]);
    }
  }

  /** What decodes is the encoding of what it decodes to: no two texts decode alike. */
  lemma {:induction false} EncodeOfDecode(s: string)
    ensures Decode(s).Some? ==> Encode(Decode(s).value) == s
  {
    if Decode(s).Some? && s != "" {
      GroupWrites(s, if |s| < 4 then |s| else 4);
      if |s| >= 4 {
        EncodeOfDecode(s[4..]);
        var t, rest := DecodeGroup(s).value, Decode(s[4..]).value;
        assert ([t.0, t.1, t.2] + rest)[3..] == rest;
        assert s == s[..4] + s[4..];
      } else {
        assert s[..|s|] == s;
      }
    }
  }

  /** Decoding succeeds exactly on encodings. */
  lemma DecodeExact(s: string, b: seq<byte>)
    ensures Decode(s) == Some(b) <==> s == Encode(b)
  {
    DecodeOfEncode(b);
    EncodeOfDecode(s);
  }

  lemma EncodeInjective(a: seq<byte>, b: seq<byte>)
    requires Encode(a) == Encode(b)
    ensures a == b
  {
    DecodeOfEncode(a);
    DecodeOfEncode(b);
  }

  /** Every character of an encoding is from the alphabet. */
  lemma {:induction false} EncodeAlphabet(b: seq<byte>)
    ensures forall k :: 0 <= k < |Encode(b)| ==> DigitValue(Encode(b)[k]).Some?
    ensures b != [] ==> Encode(b) != ""
  {
    var d := if |b| == 0 then (0, 0, 0, 0) else if |b| == 1 then Split3(b[0], 0, 0)
             else if |b| == 2 then Split3(b[0], b[1], 0) else Split3(b[0], b[1], b[2]);
    DigitReads(d.0);
    DigitReads(d.1);
    DigitReads(d.2);
    DigitReads(d.3);
    if |b| > 2 {
      EncodeAlphabet(b[3..]);
      assert forall k :: 4 <= k < |Encode(b)| ==> Encode(b)[k] == Encode(b[3..])[k - 4];
    }
  }

  // ---------------------------------------------------------------------
  // The standard's own definition
  // ---------------------------------------------------------------------

  /** Table 1 of RFC 4648. */
  lemma DigitsInOrder()
    ensures [Digit(0), Digit(1), Digit(2), Digit(3), Digit(4), Digit(5), Digit(6), Digit(7),
               Digit(8), Digit(9), Digit(10), Digit(11), Digit(12), Digit(13), Digit(14), Digit(15),
               Digit(16), Digit(17), Digit(18), Digit(19), Digit(20), Digit(21), Digit(22), Digit(23),
               Digit(24), Digit(25), Digit(26), Digit(27), Digit(28), Digit(29), Digit(30), Digit(31),
               Digit(32), Digit(33), Digit(34), Digit(35), Digit(36), Digit(37), Digit(38), Digit(39),
               Digit(40), Digit(41), Digit(42), Digit(43), Digit(44), Digit(45), Digit(46), Digit(47),
               Digit(48), Digit(49), Digit(50), Digit(51), Digit(52), Digit(53), Digit(54), Digit(55),
               Digit(56), Digit(57), Digit(58), Digit(59), Digit(60), Digit(61), Digit(62), Digit(63)]
         == "ABCDEFGHIJKLMNOPQRSTUVWXYZabcdefghijklmnopqrstuvwxyz0123456789+/"
  {
  }

  function PlaceValue(j: nat): nat
    requires j < 8
    ensures PlaceValue(j) > 0
  {
    [128, 64, 32, 16, 8, 4, 2, 1][j]
  }

  function ByteOr0(b: seq<byte>, m: nat): byte {
    if m < |b| then b[m] else 0
  }

  /** The bits of a byte string, the most significant one of each byte first; zeros behind the end. */
  function BitAt(b: seq<byte>, i: nat): int {
    (ByteOr0(b, i / 8) / PlaceValue(i % 8)) % 2
  }

  /** Six bits as a number. */
  function Six(p: int, q: int, r: int, s: int, t: int, u: int): int {
    32 * p + 16 * q + 8 * r + 4 * s + 2 * t + u
  }

  function SixBits(b: seq<byte>, i: nat): int {
    Six(BitAt(b, i), BitAt(b, i + 1), BitAt(b, i + 2), BitAt(b, i + 3), BitAt(b, i + 4), BitAt(b, i + 5))
  }

  lemma Halves(x: byte)
    ensures x == 2 * (x / 2) + x % 2
    ensures x / 2 == 2 * (x / 4) + (x / 2) % 2
    ensures x / 4 == 2 * (x / 8) + (x / 4) % 2
    ensures x / 8 == 2 * (x / 16) + (x / 8) % 2
  {
  }
  lemma HighHalves(x: byte)
    ensures x / 16 == 2 * (x / 32) + (x / 16) % 2
    ensures x / 32 == 2 * (x / 64) + (x / 32) % 2
    ensures x / 64 == 2 * (x / 128) + (x / 64) % 2
    ensures x / 128 == (x / 128) % 2
  {
  }

  lemma Remainders(x: byte)
    ensures x % 4 == x - 4 * (x / 4) && x % 16 == x - 16 * (x / 16) && x % 64 == x - 64 * (x / 64)
  {
  }

  /** A number whose halves leave the given bits. */
  lemma SumOfBits(x: int, h1: int, h2: int, h3: int, h4: int, h5: int, h6: int, h7: int,
                  b0: int, b1: int, b2: int, b3: int, b4: int, b5: int, b6: int)
    requires x == 2 * h1 + b0 && h1 == 2 * h2 + b1 && h2 == 2 * h3 + b2 && h3 == 2 * h4 + b3
    requires h4 == 2 * h5 + b4 && h5 == 2 * h6 + b5 && h6 == 2 * h7 + b6
    ensures h2 == Six(h7, b6, b5, b4, b3, b2) && h4 == Six(0, 0, h7, b6, b5, b4) && h6 == Six(0, 0, 0, 0, h7, b6)
    ensures (x - 4 * h2) * 16 == Six(b1, b0, 0, 0, 0, 0)
    ensures (x - 16 * h4) * 4 == Six(b3, b2, b1, b0, 0, 0)
    ensures x - 64 * h6 == Six(b5, b4, b3, b2, b1, b0)
  {
  }

  lemma PartsOfByte(x: byte)
    ensures x / 4 == Six((x / 128) % 2, (x / 64) % 2, (x / 32) % 2, (x / 16) % 2, (x / 8) % 2, (x / 4) % 2)
    ensures x / 16 == Six(0, 0, (x / 128) % 2, (x / 64) % 2, (x / 32) % 2, (x / 16) % 2)
    ensures x / 64 == Six(0, 0, 0, 0, (x / 128) % 2, (x / 64) % 2)
    ensures (x % 4) * 16 == Six((x / 2) % 2, x % 2, 0, 0, 0, 0)
    ensures (x % 16) * 4 == Six((x / 8) % 2, (x / 4) % 2, (x / 2) % 2, x % 2, 0, 0)
    ensures x % 64 == Six((x / 32) % 2, (x / 16) % 2, (x / 8) % 2, (x / 4) % 2, (x / 2) % 2, x % 2)
  {
    hide Six;
    Halves(x);
    HighHalves(x);
    Remainders(x);
    SumOfBits(x, x / 2, x / 4, x / 8, x / 16, x / 32, x / 64, x / 128,
              x % 2, (x / 2) % 2, (x / 4) % 2, (x / 8) % 2, (x / 16) % 2, (x / 32) % 2, (x / 64) % 2);
  }

  lemma BitOfByte(b: seq<byte>, m: nat, j: nat)
    requires j < 8
    ensures BitAt(b, 8 * m + j) == (ByteOr0(b, m) / PlaceValue(j)) % 2
  {
    hide ByteOr0, PlaceValue;
    assert (8 * m + j) / 8 == m && (8 * m + j) % 8 == j;
  }

  lemma BitsOfByte(b: seq<byte>, m: nat)
    ensures var x := ByteOr0(b, m);
            && BitAt(b, 8 * m) == (x / 128) % 2 && BitAt(b, 8 * m + 1) == (x / 64) % 2
            && BitAt(b, 8 * m + 2) == (x / 32) % 2 && BitAt(b, 8 * m + 3) == (x / 16) % 2
            && BitAt(b, 8 * m + 4) == (x / 8) % 2 && BitAt(b, 8 * m + 5) == (x / 4) % 2
            && BitAt(b, 8 * m + 6) == (x / 2) % 2 && BitAt(b, 8 * m + 7) == x % 2
  {
    hide BitAt, ByteOr0;
    BitOfByte(b, m, 0);
    BitOfByte(b, m, 1);
    BitOfByte(b, m, 2);
    BitOfByte(b, m, 3);
    BitOfByte(b, m, 4);
    BitOfByte(b, m, 5);
    BitOfByte(b, m, 6);
    BitOfByte(b, m, 7);
  }

  lemma SixSplit(p: int, q: int, r: int, s: int, t: int, u: int)
    ensures Six(p, q, 0, 0, 0, 0) + Six(0, 0, r, s, t, u) == Six(p, q, r, s, t, u)
    ensures Six(p, q, r, s, 0, 0) + Six(0, 0, 0, 0, t, u) == Six(p, q, r, s, t, u)
  {
  }

  /** The sextets of the first group are the first 24 bits, six by six. */
  lemma GroupIsBits(b: seq<byte>)
    ensures var d := Split3(ByteOr0(b, 0), ByteOr0(b, 1), ByteOr0(b, 2));
            d.0 == SixBits(b, 0) && d.1 == SixBits(b, 6) && d.2 == SixBits(b, 12) && d.3 == SixBits(b, 18)
  {
    hide BitAt, ByteOr0, Six;
    var x, y, z := ByteOr0(b, 0), ByteOr0(b, 1), ByteOr0(b, 2);
    BitsOfByte(b, 0);
    BitsOfByte(b, 1);
    BitsOfByte(b, 2);
    PartsOfByte(x);
    PartsOfByte(y);
    PartsOfByte(z);
    SixSplit(BitAt(b, 6), BitAt(b, 7), BitAt(b, 8), BitAt(b, 9), BitAt(b, 10), BitAt(b, 11));
    SixSplit(BitAt(b, 12), BitAt(b, 13), BitAt(b, 14), BitAt(b, 15), BitAt(b, 16), BitAt(b, 17));
  }

  lemma BitBehind(b: seq<byte>, i: nat)
    requires |b| >= 3 && i >= 24
    ensures BitAt(b, i) == BitAt(b[3..], i - 24)
  {
    hide PlaceValue;
    assert (i - 24) / 8 == i / 8 - 3 && (i - 24) % 8 == i % 8;
  }

  lemma SixBitsBehind(b: seq<byte>, i: nat)
    requires |b| >= 3 && i >= 24
    ensures SixBits(b, i) == SixBits(b[3..], i - 24)
  {
    hide BitAt, Six;
    BitBehind(b, i);
    BitBehind(b, i + 1);
    BitBehind(b, i + 2);
    BitBehind(b, i + 3);
    BitBehind(b, i + 4);
    BitBehind(b, i + 5);
  }

  /** Character k of an encoding is the digit for the number that bits 6k to 6k+5 make. */
  ghost predicate CharIsBits(b: seq<byte>, k: nat)
    requires k < |Encode(b)|
  {
    0 <= SixBits(b, 6 * k) < 64 && Encode(b)[k] == Digit(SixBits(b, 6 * k))
  }

  lemma FirstChars(b: seq<byte>)
    ensures |b| < 3 ==> |Encode(b)| == (8 * |b| + 5) / 6
    ensures |b| >= 3 ==> |Encode(b)| >= 4
    ensures var group := EncodeGroup(Split3(ByteOr0(b, 0), ByteOr0(b, 1), ByteOr0(b, 2)));
            forall k :: 0 <= k < 4 && k < |Encode(b)| ==> Encode(b)[k] == group[k]
  {
    hide Split3, Digit, EncodeGroup;
  }

  lemma FirstCharsAreBits(b: seq<byte>, k: nat)
    requires k < |Encode(b)| && k < 4
    ensures CharIsBits(b, k)
  {
    hide SixBits, Split3, Digit, Encode, ByteOr0;
    GroupIsBits(b);
    FirstChars(b);
  }

  lemma LaterCharIsBits(b: seq<byte>, k: nat)
    requires |b| >= 3 && 4 <= k < |Encode(b)| && |Encode(b)| == 4 + |Encode(b[3..])| && CharIsBits(b[3..], k - 4)
    ensures CharIsBits(b, k)
  {
    hide SixBits, Split3, Encode, Digit, EncodeGroup;
    EncodeLong(b);
    SixBitsBehind(b, 6 * k);
    assert 6 * k - 24 == 6 * (k - 4);
    assert Encode(b)[k] == Encode(b[3..])[k - 4];
  }

  lemma EncodedLength(n: nat)
    requires n >= 3
    ensures (8 * n + 5) / 6 == 4 + (8 * (n - 3) + 5) / 6
  {
  }

  /**
    Encoding by the standard's definition: as many characters as it takes for
    all bits, each the digit for its six bits, with zeros behind the last bit.
   */
  lemma {:induction false} EncodeExactly(b: seq<byte>)
    ensures |Encode(b)| == (8 * |b| + 5) / 6
    ensures forall k :: 0 <= k < |Encode(b)| ==> CharIsBits(b, k)
  {
    hide CharIsBits, Encode, Split3, Digit, EncodeGroup;
    FirstChars(b);
    if |b| < 3 {
      forall k | 0 <= k < |Encode(b)| ensures CharIsBits(b, k) {
        FirstCharsAreBits(b, k);
      }
    } else {
      EncodeExactly(b[3..]);
      EncodeLong(b);
      EncodedLength(|b|);
      forall k | 0 <= k < |Encode(b)| ensures CharIsBits(b, k) {
        if k < 4 {
          FirstCharsAreBits(b, k);
        } else {
          LaterCharIsBits(b, k);
        }
      }
    }
  }
}
