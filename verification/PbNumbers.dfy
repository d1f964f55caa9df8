/** The numbers of the wire format (pb_decode.c): which value of a field's width an encoded
    number stands for, and when there is none. */
module PbNumbers {
  import opened InternalKeys
  import opened Coding
  import opened PbMessages
  import opened PbEncode
  import opened PbDecode
  import opened PbRoundTrip

  // ---- 32-bit varints ----

  /** What `n`, the bits from `bitpos` on, must be to pass for copies of a sign bit: the groups of
      seven bits are all ones or all zeros, and the topmost bit of the 64 is set. */
  predicate SignGroups(n: nat, bitpos: nat)
    decreases n
  {
    if bitpos >= 63 then n == 1
    else n >= 128 && (n % 128 == 0 || n % 128 == 127) && SignGroups(n / 128, bitpos + 7)
  }

  /** The bits past the 35th only repeat the sign of the low word; bits 32 to 34 are not looked at. */
  predicate SignExtended(n: nat) {
    n % WORD >= 0x8000_0000 && SignGroups(n / 0x8_0000_0000, 35)
  }

  lemma {:induction false} TailHigh(n: nat, rest: Bytes, bitpos: nat, result: nat)
    requires 35 <= bitpos <= 63 && bitpos % 7 == 0 && 0 < n && result < WORD
    requires bitpos == 63 ==> n < 2
    requires n < HighLimit(bitpos)
    ensures Varint32Tail(EncodeVarint(n) + rest, bitpos, result) ==
            if result >= 0x8000_0000 && SignGroups(n, bitpos) then Some((result, rest)) else None
    decreases n
  {
    hide EncodeVarint, Varint32Tail, WithBits;
    Step(n);
    var s := EncodeVarint(n) + rest;
    TailStep(s, bitpos, result);
    if n < 128 {
      assert s[1..] == rest;
    } else {
      assert s[1..] == EncodeVarint(n / 128) + rest;
      TailHigh(n / 128, rest, bitpos + 7, result);
    }
  }

  /** How large the bits of a 64-bit number from that one on can be. */
  function HighLimit(bitpos: nat): nat {
    if bitpos == 35 then 0x2000_0000
    else if bitpos == 42 then 0x40_0000
    else if bitpos == 49 then 0x8000
    else if bitpos == 56 then 0x100
    else 2
  }

  /** The low 28 bits have been read. */
  lemma TailFifth(n: nat, rest: Bytes, result: nat)
    requires 0 < n < 0x10_0000_0000 && result < 0x1000_0000
    ensures Varint32Tail(EncodeVarint(n) + rest, 28, result) ==
      var low := result + n % 16 * 0x1000_0000;
      if n < 16 || (low >= 0x8000_0000 && SignGroups(n / 128, 35)) then Some((low, rest)) else None
  {
    hide EncodeVarint, Varint32Tail;
    Step(n);
    var s := EncodeVarint(n) + rest;
    TailStep(s, 28, result);
    FifthBits(n, result);
    if n < 128 {
      assert s[1..] == rest;
    } else {
      assert s[1..] == EncodeVarint(n / 128) + rest;
      TailHigh(n / 128, rest, 35, result + n % 16 * 0x1000_0000);
    }
  }

  lemma FifthBits(n: nat, result: nat)
    requires result < 0x1000_0000
    ensures WithBits(result, n % 128, 28) == WithBits(result, n % 128 + 128, 28) == result + n % 16 * 0x1000_0000
  {
    hide WithBits;
    var c, d := n % 128 / 16, n % 128 % 16;
    LowNibble(n);
    AtTop(result, n % 128);
    ModUnique(result + n % 128 * 0x1000_0000, WORD, c, result + d * 0x1000_0000);
  }

  lemma AtTop(result: nat, low: nat)
    requires low < 128
    ensures WithBits(result, low, 28) == WithBits(result, low + 128, 28) == (result + low * 0x1000_0000) % WORD
  {
    TopBitOff(low);
  }

  lemma LowNibble(n: nat)
    ensures n % 128 % 16 == n % 16
  {
    ModUnique(n, 16, n / 128 * 8 + n % 128 / 16, n % 128 % 16);
  }

  /** The bits of a number before this one, and those from it on. */
  function Low(n: nat, bitpos: nat): (r: nat)
    ensures r < WORD
  {
    if bitpos == 7 then n % 0x80 else if bitpos == 14 then n % 0x4000
    else if bitpos == 21 then n % 0x20_0000 else n % 0x1000_0000
  }

  function High(n: nat, bitpos: nat): nat {
    if bitpos == 7 then n / 0x80 else if bitpos == 14 then n / 0x4000
    else if bitpos == 21 then n / 0x20_0000 else n / 0x1000_0000
  }

  /** What the decoder makes of the rest once the bits before this one have been read. */
  function TailAt(n: nat, rest: Bytes, bitpos: nat): Option<(nat, Bytes)> {
    Varint32Tail(EncodeVarint(High(n, bitpos)) + rest, bitpos, Low(n, bitpos))
  }

  /** One of the bytes before the fifth, when more than four are needed. */
  lemma TailBefore(n: nat, rest: Bytes, bitpos: nat)
    requires (bitpos == 7 || bitpos == 14 || bitpos == 21) && n >= 0x1000_0000
    ensures TailAt(n, rest, bitpos) == TailAt(n, rest, bitpos + 7)
  {
    hide EncodeVarint, Varint32Tail, WithBits, High, Low;
    var m := High(n, bitpos);
    NextBits(n, bitpos);
    Step(m);
    var s := EncodeVarint(m) + rest;
    TailStep(s, bitpos, Low(n, bitpos));
    assert s[1..] == EncodeVarint(m / 128) + rest;
  }

  lemma NextBits(n: nat, bitpos: nat)
    requires (bitpos == 7 || bitpos == 14 || bitpos == 21) && n >= 0x1000_0000
    ensures var m := High(n, bitpos);
      && m >= 128 && m / 128 == High(n, bitpos + 7)
      && WithBits(Low(n, bitpos), m % 128 + 128, bitpos) == Low(n, bitpos + 7)
  {
    hide WithBits;
    WithBitsIs(Low(n, bitpos), High(n, bitpos), bitpos);
    Digits(n);
  }

  lemma Digits(n: nat)
    ensures n % 0x4000 == n % 0x80 + n / 0x80 % 128 * 0x80 && n / 0x80 / 128 == n / 0x4000
    ensures n % 0x20_0000 == n % 0x4000 + n / 0x4000 % 128 * 0x4000 && n / 0x4000 / 128 == n / 0x20_0000
    ensures n % 0x1000_0000 == n % 0x20_0000 + n / 0x20_0000 % 128 * 0x20_0000 && n / 0x20_0000 / 128 == n / 0x1000_0000
  {
    OneDigit(n, 0x80, 128, 0x4000);
    OneDigit(n, 0x4000, 128, 0x20_0000);
    OneDigit(n, 0x20_0000, 128, 0x1000_0000);
  }

  lemma OneDigit(n: nat, p: nat, base: nat, q: nat)
    requires 0 < p && 0 < base && q == base * p
    ensures q > 0 && n % q == n % p + n / p % base * p && n / p / base == n / q
  {
    var c, d, b := n / p / base, n / p % base, n % p;
    Whole(n, p);
    Whole(n / p, base);
    DigitParts(n, p, base, q, n / p, b, c, d);
    ModUnique(n, q, c, d * p + b);
    QuotientIs(n, q, c, d * p + b);
  }

  lemma DigitParts(n: nat, p: nat, base: nat, q: nat, a: nat, b: nat, c: nat, d: nat)
    requires n == a * p + b && a == c * base + d && b < p && d < base && q == base * p
    ensures 0 < q && n == c * q + (d * p + b) == q * c + (d * p + b) && d * p + b < q
  {
    Spread(c, d, base, p);
    MulMonotone(d, base - 1, p);
    BaseLess(base, p);
  }

  lemma Whole(n: nat, p: nat)
    requires p > 0
    ensures n == n / p * p + n % p && n % p < p
  {
  }

  lemma BaseLess(base: nat, p: nat)
    requires base > 0
    ensures (base - 1) * p == base * p - p
  {
  }

  lemma Spread(c: nat, d: nat, base: nat, p: nat)
    ensures (c * base + d) * p == c * (base * p) + d * p
  {
    assert (c * base + d) * p == c * base * p + d * p;
    assert c * base * p == c * (base * p);
  }

  lemma WithBitsIs(low: nat, m: nat, bitpos: nat)
    requires (bitpos == 7 && low < 0x80) || (bitpos == 14 && low < 0x4000) || (bitpos == 21 && low < 0x20_0000)
    ensures WithBits(low, m % 128 + 128, bitpos) ==
            low + m % 128 * if bitpos == 7 then 0x80 else if bitpos == 14 then 0x4000 else 0x20_0000
  {
    assert (m % 128 + 128) % 128 == m % 128;
  }

  /** A number past 32 bits is refused unless its upper bits pass for copies of the sign of its low
      word, which is what is read then. */
  lemma Varint32Exactly(n: nat, rest: Bytes)
    requires n < DOUBLE_WORD
    ensures Varint32(EncodeVarint(n) + rest) ==
            if n < WORD || SignExtended(n) then Some((n % WORD, rest)) else None
  {
    hide TailAt, SignExtended, Varint32, EncodeVarint;
    if n < WORD {
      Varint32RoundTrip(n, rest);
    } else {
      FirstByte(n, rest);
      TailBefore(n, rest, 7);
      TailBefore(n, rest, 14);
      TailBefore(n, rest, 21);
      FromFifth(n, rest);
    }
  }

  lemma FirstByte(n: nat, rest: Bytes)
    requires n >= 128
    ensures Varint32(EncodeVarint(n) + rest) == TailAt(n, rest, 7)
  {
    hide EncodeVarint, Varint32Tail, Varint32, High, Low;
    Step(n);
    AtSeven(n);
    var low, more := Low(n, 7), EncodeVarint(High(n, 7));
    ContinuedFirst(low, more + rest);
    assert [low + 128] + more + rest == [low + 128] + (more + rest);
  }

  lemma AtSeven(n: nat)
    ensures High(n, 7) == n / 128 && Low(n, 7) == n % 128
  {
  }

  lemma ContinuedFirst(low: nat, more: Bytes)
    requires low < 128
    ensures Varint32([low + 128] + more) == Varint32Tail(more, 7, low)
  {
    hide Varint32Tail;
    var s := [low + 128] + more;
    assert s[1..] == more && s[0] == low + 128;
    TopBitOff(low);
  }

  lemma TopBitOff(low: nat)
    requires low < 128
    ensures (low + 128) % 128 == low
  {
  }

  lemma FromFifth(n: nat, rest: Bytes)
    requires WORD <= n < DOUBLE_WORD
    ensures TailAt(n, rest, 28) == if SignExtended(n) then Some((n % WORD, rest)) else None
  {
    hide EncodeVarint, Varint32Tail, SignGroups, SignExtended;
    LowParts(n);
    TailFifth(n / 0x1000_0000, rest, n % 0x1000_0000);
  }

  lemma LowParts(n: nat)
    requires WORD <= n < DOUBLE_WORD
    ensures 16 <= n / 0x1000_0000 < 0x10_0000_0000
    ensures var low := n % 0x1000_0000 + n / 0x1000_0000 % 16 * 0x1000_0000;
      low == n % WORD && (SignExtended(n) <==> low >= 0x8000_0000 && SignGroups(n / 0x1000_0000 / 128, 35))
  {
    hide SignGroups;
    OneDigit(n, 0x1000_0000, 16, WORD);
    OneDigit(n, 0x1000_0000, 128, 0x8_0000_0000);
  }

  /** A negative number of 32 bits, written with 64, reads back as its low word. */
  lemma NegativeAccepted(n: int)
    requires -0x8000_0000 <= n < 0
    ensures SignExtended(Unsigned(n)) && Unsigned(n) % WORD == n + WORD
  {
    LowWord(n);
    UnsignedIs(n);
    var high := Unsigned(n) / 0x8_0000_0000;
    assert high == 0x1fff_ffff;
    assert SignGroups(1, 63);
    assert SignGroups(0xff, 56);
    assert SignGroups(0x7fff, 49);
    assert SignGroups(0x3f_ffff, 42);
  }

  /** A number that is not the extension of its low word, as bit 32 is not set, and passes. */
  lemma OddExtensionAccepted()
    ensures var n := 0xffff_fffe_8000_0000;
      SignExtended(n) && forall m: int :: -0x8000_0000 <= m < 0x8000_0000 ==> Unsigned(m) != n
  {
    assert 0xffff_fffe_8000_0000 / 0x8_0000_0000 == 0x1fff_ffff;
    NegativeAccepted(-0x8000_0000);
    forall m: int | -0x8000_0000 <= m < 0x8000_0000 ensures Unsigned(m) != 0xffff_fffe_8000_0000 { UnsignedIs(m); }
  }

  // ---- widths ----

  /** The number read has the field's width and agrees with the encoded one modulo 2^64, or
      modulo 2^32 for a narrower field; if it is refused there is no such number. */
  lemma IntExactly(size: nat, u: nat)
    requires WidthOk(size) && u < DOUBLE_WORD
    ensures var modulus := if size == 8 then DOUBLE_WORD else WORD;
      match DecodeInt(size, u)
      case Some(n) => IntFits(n, size) && (u - n) % modulus == 0
      case None => forall n: int :: IntFits(n, size) ==> (u - n) % modulus != 0
  {
    if size == 8 {
      SignedIs(u, 8);
    } else {
      SignedIs(u % WORD, 4);
      LowDiffers(u, ToSigned(u % WORD, 4));
      if DecodeInt(size, u).None? {
        forall n: int | IntFits(n, size) ensures (u - n) % WORD != 0 { SameLowWord(u, n); }
      }
    }
  }

  lemma SignedIs(u: nat, size: nat)
    requires (size == 8 && u < DOUBLE_WORD) || (size == 4 && u < WORD)
    ensures var n := ToSigned(u, size);
      IntFits(n, size) && (n == u || n == u - if size == 8 then DOUBLE_WORD else WORD)
  {
  }

  lemma LowDiffers(u: nat, n: int)
    requires n == u % WORD || n == u % WORD - WORD
    ensures (u - n) % WORD == 0
  {
  }

  /** A number of 32 bits that agrees with `u` modulo 2^32 is what its low word says. */
  lemma SameLowWord(u: nat, n: int)
    requires -0x8000_0000 <= n < 0x8000_0000
    ensures (u - n) % WORD == 0 ==> n == ToSigned(u % WORD, 4)
  {
    if (u - n) % WORD == 0 {
      var k := (u - n) / WORD;
      assert u == n + k * WORD;
    }
  }

  /** Zigzag numbers both ways: what is read is what would be written so. */
  lemma ZigZagExactly(size: nat, u: nat)
    requires WidthOk(size)
    ensures match DecodeZigZag(size, u)
      case Some(n) => IntFits(n, size) && ZigZag(n) == u
      case None => forall n: int :: IntFits(n, size) ==> ZigZag(n) != u
  {
  }

  /** Numbers near zero come first, the negative one of two first: 0, -1, 1, -2, 2 and so on. */
  lemma ZigZagOrder(a: int, b: int)
    ensures var p, q := if a < 0 then -a else a, if b < 0 then -b else b;
      ZigZag(a) < ZigZag(b) <==> p < q || (p == q && a < b)
    ensures ZigZag(0) == 0 && ZigZag(-1) == 1 && ZigZag(1) == 2
  {
  }
}
