/** Integers as bytes (util/coding.cc): fixed-width and variable-width encodings. */
module Coding {
  import opened InternalKeys

  type Byte = b: int | 0 <= b < 256

  type Bytes = seq<Byte>

  const WORD: nat := 0x1_0000_0000

  // ---- fixed width ----

  function EncodeFixed32(n: nat): (bytes: Bytes)
    requires n < WORD
    ensures |bytes| == 4
  {
    var n1 := n / 256;
    var n2 := n1 / 256;
    [n % 256, n1 % 256, n2 % 256, n2 / 256]
  }

  function DecodeFixed32(bytes: Bytes): (n: nat)
    requires |bytes| == 4
    ensures n < WORD
  {
    LittleEndian(bytes[0], bytes[1], bytes[2], bytes[3])
  }

  function LittleEndian(a: nat, b: nat, c: nat, d: nat): nat {
    a + b * 256 + c * 65536 + d * 16777216
  }

  lemma Fixed32RoundTrip(n: nat)
    requires n < WORD
    ensures DecodeFixed32(EncodeFixed32(n)) == n
  {
  }

  lemma Fixed32Back(bytes: Bytes)
    requires |bytes| == 4
    ensures EncodeFixed32(DecodeFixed32(bytes)) == bytes
  {
    var b: nat, c: nat, d: nat := bytes[1], bytes[2], bytes[3];
    var n := DecodeFixed32(bytes);
    assert n / 256 == b + c * 256 + d * 65536;
    assert n / 256 / 256 == c + d * 256;
  }

  /** The bytes are the digits of the number in base 256, the lowest first. */
  lemma Fixed32Digits(n: nat)
    requires n < WORD
    ensures var b := EncodeFixed32(n);
            n == (b[0] as nat) + 0x100 * b[1] as nat + 0x1_0000 * b[2] as nat + 0x100_0000 * b[3] as nat
  {
  }

  function EncodeFixed64(n: nat): (bytes: Bytes)
    requires n < WORD * WORD
    ensures |bytes| == 8
  {
    EncodeFixed32(n % WORD) + EncodeFixed32(n / WORD)
  }

  function DecodeFixed64(bytes: Bytes): (n: nat)
    requires |bytes| == 8
  {
    DecodeFixed32(bytes[..4]) + DecodeFixed32(bytes[4..]) * WORD
  }

  lemma Fixed64RoundTrip(n: nat)
    requires n < WORD * WORD
    ensures DecodeFixed64(EncodeFixed64(n)) == n
  {
    hide EncodeFixed32, DecodeFixed32;
    Fixed32RoundTrip(n % WORD);
    Fixed32RoundTrip(n / WORD);
    var bytes := EncodeFixed64(n);
    assert bytes[..4] == EncodeFixed32(n % WORD) && bytes[4..] == EncodeFixed32(n / WORD);
  }

  // ---- varints: seven bits a byte, lowest first ----

  function EncodeVarint(n: nat): (bytes: Bytes)
    ensures |bytes| > 0
  {
    if n < 128 then [n] else [n % 128 + 128] + EncodeVarint(n / 128)
  }

  /** Value and length of the varint at position `p`, at most `left` bytes long and before
      `limit`; None if it does not end there. */
  function VarintAt(bytes: Bytes, p: nat, limit: nat, left: nat): (r: Option<(nat, nat)>)
    requires limit <= |bytes|
    ensures r.Some? ==> 0 < r.value.1 <= left && p + r.value.1 <= limit
    decreases left
  {
    if left == 0 || p >= limit then None
    else if bytes[p] < 128 then Some((bytes[p], 1))
    else
      var rest := VarintAt(bytes, p + 1, limit, left - 1);
      if rest.None? then None else Some((LowBits(bytes[p]) + rest.value.0 * 128, rest.value.1 + 1))
  }

  function LowBits(b: nat): nat {
    b % 128
  }

  function Power128(k: nat): (r: nat)
    ensures r > 0
  {
    if k == 0 then 1 else 128 * Power128(k - 1)
  }

  /** The bytes are the digits of the number in base 128, the lowest first and no more than it
      has; every byte but the last has its top bit set. */
  lemma {:induction false} VarintDigits(n: nat, k: nat)
    requires k < |EncodeVarint(n)|
    ensures var e := EncodeVarint(n);
      && e[k] % 128 == n / Power128(k) % 128
      && (e[k] >= 128 <==> k + 1 < |e|)
      && n < Power128(|e|) && (|e| > 1 ==> n >= Power128(|e| - 1))
  {
    if n >= 128 {
      var e, rest := EncodeVarint(n), EncodeVarint(n / 128);
      assert e[1..] == rest;
      VarintDigits(n / 128, if k == 0 then 0 else k - 1);
      if k > 0 {
        assert e[k] == rest[k - 1];
        DivideTwice(n, Power128(k - 1));
      }
      assert Power128(|e|) == 128 * Power128(|rest|);
    }
  }

  /** Bytes from `p` on that all promise another one. */
  predicate Unended(bytes: Bytes, p: nat) {
    forall k :: p <= k < |bytes| ==> bytes[k] >= 128
  }

  lemma {:induction false} UnendedVarint(bytes: Bytes, p: nat, left: nat)
    requires Unended(bytes, p)
    ensures VarintAt(bytes, p, |bytes|, left) == None
    decreases left
  {
    if left > 0 && p < |bytes| { UnendedVarint(bytes, p + 1, left - 1); }
  }

  /** A varint that is cut off cannot be read. */
  lemma VarintUnended(bytes: Bytes, p: nat, n: nat, cut: nat)
    requires cut < |EncodeVarint(n)| && p + cut == |bytes| && bytes[p..] == EncodeVarint(n)[..cut]
    ensures Unended(bytes, p)
  {
    hide EncodeVarint;
    forall k | p <= k < |bytes| ensures bytes[k] >= 128 {
      assert bytes[k] == bytes[p..][k - p];
      VarintDigits(n, k - p);
    }
  }

  lemma DivideTwice(n: nat, p: nat)
    requires p > 0
    ensures n / 128 / p == n / (128 * p)
  {
    var q, r := n / 128, n % 128;
    var q2, r2 := q / p, q % p;
    assert n == 128 * q + r && q == p * q2 + r2;
    assert n == 128 * p * q2 + (128 * r2 + r) && 128 * r2 + r < 128 * p by {
      assert 128 * (p * q2) == 128 * p * q2;
    }
    QuotientIs(n, 128 * p, q2, 128 * r2 + r);
  }

  lemma QuotientIs(n: nat, d: nat, q: nat, r: nat)
    requires d > 0 && r < d && n == d * q + r
    ensures n / d == q
  {
    var q', r' := n / d, n % d;
    assert n == d * q' + r';
    MulOrder(q, q', d);
    MulOrder(q', q, d);
  }

  /** Encoding and decoding undo each other, whatever follows. */
  lemma {:induction false} VarintRoundTrip(n: nat, bytes: Bytes, p: nat, limit: nat, left: nat)
    requires left > 0 && n < Power128(left) && p + |EncodeVarint(n)| <= limit <= |bytes|
    requires bytes[p..p + |EncodeVarint(n)|] == EncodeVarint(n)
    ensures VarintAt(bytes, p, limit, left) == Some((n, |EncodeVarint(n)|))
  {
    var e := EncodeVarint(n);
    assert bytes[p] == bytes[p..p + |e|][0] == e[0];
    if n >= 128 {
      var rest := EncodeVarint(n / 128);
      assert bytes[p + 1..p + 1 + |rest|] == rest by {
        assert e[1..] == rest && bytes[p..p + |e|][1..] == bytes[p + 1..p + |e|];
      }
      assert LowBits(e[0]) + n / 128 * 128 == n;
      VarintRoundTrip(n / 128, bytes, p + 1, limit, left - 1);
    }
  }

  /** `EncodeVarint32`: one case for each length. */
  method EncodeVarint32(v: nat) returns (bytes: Bytes)
    requires v < WORD
    ensures bytes == EncodeVarint(v)
  {
    Unfold(v);
    if v < 0x80 {
      bytes := [v];
    } else if v < 0x4000 {
      bytes := [v % 128 + 128, v / 128];
    } else if v < 0x20_0000 {
      bytes := [v % 128 + 128, v / 128 % 128 + 128, v / 0x4000];
    } else if v < 0x1000_0000 {
      bytes := [v % 128 + 128, v / 128 % 128 + 128, v / 0x4000 % 128 + 128, v / 0x20_0000];
    } else {
      bytes := [v % 128 + 128, v / 128 % 128 + 128, v / 0x4000 % 128 + 128, v / 0x20_0000 % 128 + 128, v / 0x1000_0000];
    }
  }

  lemma Unfold(v: nat)
    requires v < WORD
    ensures var v1, v2, v3, v4 := v / 128, v / 0x4000, v / 0x20_0000, v / 0x1000_0000;
      EncodeVarint(v) ==
      if v < 0x80 then [v]
      else if v < 0x4000 then [v % 128 + 128, v1]
      else if v < 0x20_0000 then [v % 128 + 128, v1 % 128 + 128, v2]
      else if v < 0x1000_0000 then [v % 128 + 128, v1 % 128 + 128, v2 % 128 + 128, v3]
      else [v % 128 + 128, v1 % 128 + 128, v2 % 128 + 128, v3 % 128 + 128, v4]
  {
    hide EncodeVarint;
    if v < 0x80 {
      Step(v);
    } else if v < 0x4000 {
      TwoBytes(v);
    } else if v < 0x20_0000 {
      ThreeBytes(v);
    } else if v < 0x1000_0000 {
      FourBytes(v);
    } else {
      FiveBytes(v);
    }
  }

  lemma FiveBytes(v: nat)
    requires 0x1000_0000 <= v < WORD
    ensures EncodeVarint(v) ==
            [v % 128 + 128, v / 128 % 128 + 128, v / 0x4000 % 128 + 128, v / 0x20_0000 % 128 + 128, v / 0x1000_0000]
  {
    hide EncodeVarint;
    Nested(v);
    Step(v);
    FourBytes(v / 128);
  }

  lemma Nested(v: nat)
    ensures v / 128 / 128 == v / 0x4000 && v / 128 / 0x4000 == v / 0x20_0000 && v / 128 / 0x20_0000 == v / 0x1000_0000
  {
  }

  lemma TwoBytes(v: nat)
    requires 0x80 <= v < 0x4000
    ensures EncodeVarint(v) == [v % 128 + 128, v / 128]
  {
    Step(v);
    Step(v / 128);
  }

  lemma ThreeBytes(v: nat)
    requires 0x4000 <= v < 0x20_0000
    ensures EncodeVarint(v) == [v % 128 + 128, v / 128 % 128 + 128, v / 0x4000]
  {
    hide EncodeVarint;
    Nested(v);
    Step(v);
    TwoBytes(v / 128);
  }

  lemma FourBytes(v: nat)
    requires 0x20_0000 <= v < 0x1000_0000
    ensures EncodeVarint(v) == [v % 128 + 128, v / 128 % 128 + 128, v / 0x4000 % 128 + 128, v / 0x20_0000]
  {
    hide EncodeVarint;
    Nested(v);
    Step(v);
    ThreeBytes(v / 128);
  }

  lemma Step(v: nat)
    ensures EncodeVarint(v) == if v < 128 then [v] else [v % 128 + 128] + EncodeVarint(v / 128)
  {
  }

  /** `EncodeVarint64`: a loop. */
  method EncodeVarint64(v: nat) returns (bytes: Bytes)
    ensures bytes == EncodeVarint(v)
  {
    bytes := [];
    var rest := v;
    while rest >= 128
      invariant bytes + EncodeVarint(rest) == EncodeVarint(v)
    {
      bytes := bytes + [rest % 128 + 128];
      rest := rest / 128;
    }
    bytes := bytes + [rest];
  }

  /** How many bytes the varint of `v` has. */
  method VarintLength(v: nat) returns (len: nat)
    ensures len == |EncodeVarint(v)|
  {
    len := 1;
    var rest := v;
    while rest >= 128
      invariant len - 1 + |EncodeVarint(rest)| == |EncodeVarint(v)|
    {
      rest := rest / 128;
      len := len + 1;
    }
  }

  // ---- reading varints ----

  const DOUBLE_WORD: nat := 0x1_0000_0000_0000_0000

  /** `GetVarint32PtrFallback`: at most five bytes; bits past the 32nd are cut off. */
  method GetVarint32Ptr(bytes: Bytes, p: nat, limit: nat) returns (r: Option<(nat, nat)>)
    requires limit <= |bytes|
    ensures r.None? <==> VarintAt(bytes, p, limit, 5).None?
    ensures r.Some? ==>
      var v := VarintAt(bytes, p, limit, 5).value;
      r.value.0 == v.0 % WORD && r.value.1 == p + v.1 <= limit
  {
    r := GetVarintPtr(bytes, p, limit, 5, WORD);
  }

  /** `GetVarint64Ptr`: at most ten bytes; bits past the 64th are cut off. */
  method GetVarint64Ptr(bytes: Bytes, p: nat, limit: nat) returns (r: Option<(nat, nat)>)
    requires limit <= |bytes|
    ensures r.None? <==> VarintAt(bytes, p, limit, 10).None?
    ensures r.Some? ==>
      var v := VarintAt(bytes, p, limit, 10).value;
      r.value.0 == v.0 % DOUBLE_WORD && r.value.1 == p + v.1 <= limit
  {
    r := GetVarintPtr(bytes, p, limit, 10, DOUBLE_WORD);
  }

  /** The loop of both: seven bits a byte at rising shifts, in a word of the given size. */
  method GetVarintPtr(bytes: Bytes, p: nat, limit: nat, total: nat, word: nat) returns (r: Option<(nat, nat)>)
    requires limit <= |bytes| && word > 0
    ensures r.None? <==> VarintAt(bytes, p, limit, total).None?
    ensures r.Some? ==>
      var v := VarintAt(bytes, p, limit, total).value;
      r.value.0 == v.0 % word && r.value.1 == p + v.1 <= limit
  {
    hide VarintAt, LowBits, Partial;
    var result: nat, weight: nat, q, k := 0, 1, p, 0; // weight is two to the power of the shift, 7 * k
    PartialStart(bytes, p, limit, total, word);
    while k < total && q < limit
      invariant k <= total && q == p + k
      invariant Partial(bytes, p, limit, total, word, k, result, weight)
      decreases total - k
    {
      var byte := bytes[q];
      PartialStep(bytes, p, limit, total, word, k, result, weight);
      q := q + 1;
      if byte >= 128 {
        result := Sum(result, LowBits(byte), weight, word);
      } else {
        return Some((Sum(result, byte, weight, word), q));
      }
      weight, k := weight * 128, k + 1;
    }
    PartialEnd(bytes, p, limit, total, word, k, result, weight);
    return None;
  }

  function Sum(result: nat, low: nat, weight: nat, word: nat): (s: nat)
    requires word > 0
    ensures s < word
  {
    (result + low * weight) % word
  }

  /** After `k` bytes: what they contribute, modulo the word size, and what is still to come. */
  ghost predicate Partial(bytes: Bytes, p: nat, limit: nat, total: nat, word: nat, k: nat, result: nat, weight: nat)
    requires limit <= |bytes| && k <= total && word > 0
  {
    var whole, rest := VarintAt(bytes, p, limit, total), VarintAt(bytes, p + k, limit, total - k);
    && (whole.Some? <==> rest.Some?)
    && (rest.Some? ==>
        whole.value.1 == rest.value.1 + k && whole.value.0 % word == Sum(result, rest.value.0, weight, word))
  }

  lemma PartialStart(bytes: Bytes, p: nat, limit: nat, total: nat, word: nat)
    requires limit <= |bytes| && word > 0
    ensures Partial(bytes, p, limit, total, word, 0, 0, 1)
  {
  }

  lemma PartialStep(bytes: Bytes, p: nat, limit: nat, total: nat, word: nat, k: nat, result: nat, weight: nat)
    requires limit <= |bytes| && k < total && p + k < limit && word > 0
    requires Partial(bytes, p, limit, total, word, k, result, weight)
    ensures bytes[p + k] >= 128 ==>
      Partial(bytes, p, limit, total, word, k + 1, Sum(result, LowBits(bytes[p + k]), weight, word), weight * 128)
    ensures bytes[p + k] < 128 ==>
      && VarintAt(bytes, p, limit, total).Some? && VarintAt(bytes, p, limit, total).value.1 == k + 1
      && VarintAt(bytes, p, limit, total).value.0 % word == Sum(result, bytes[p + k], weight, word)
  {
    hide VarintAt, LowBits, Sum;
    VarintStep(bytes, p + k, limit, total - k);
    var rest := VarintAt(bytes, p + k + 1, limit, total - k - 1);
    if bytes[p + k] >= 128 && rest.Some? {
      AddPart(result, weight, LowBits(bytes[p + k]), rest.value.0, word);
    }
  }

  lemma PartialEnd(bytes: Bytes, p: nat, limit: nat, total: nat, word: nat, k: nat, result: nat, weight: nat)
    requires limit <= |bytes| && k <= total && word > 0 && (k == total || p + k >= limit)
    requires Partial(bytes, p, limit, total, word, k, result, weight)
    ensures VarintAt(bytes, p, limit, total) == None
  {
    VarintStep(bytes, p + k, limit, total - k);
  }

  lemma VarintStep(bytes: Bytes, p: nat, limit: nat, left: nat)
    requires limit <= |bytes|
    ensures left == 0 || p >= limit ==> VarintAt(bytes, p, limit, left) == None
    ensures left > 0 && p < limit && bytes[p] < 128 ==> VarintAt(bytes, p, limit, left) == Some((bytes[p], 1))
    ensures left > 0 && p < limit && bytes[p] >= 128 ==>
      var rest := VarintAt(bytes, p + 1, limit, left - 1);
      VarintAt(bytes, p, limit, left) ==
      if rest.None? then None else Some((LowBits(bytes[p]) + rest.value.0 * 128, rest.value.1 + 1))
  {
  }

  lemma AddPart(result: nat, weight: nat, low: nat, rest: nat, word: nat)
    requires word > 0
    ensures Sum(result, low + rest * 128, weight, word) == Sum(Sum(result, low, weight, word), rest, weight * 128, word)
  {
    var sum, more := result + low * weight, rest * (weight * 128);
    assert result + (low + rest * 128) * weight == sum + more;
    ModAdd(sum, more, word);
  }

  lemma ModAdd(a: nat, b: nat, word: nat)
    requires word > 0
    ensures (a + b) % word == (a % word + b) % word
  {
    var q := a / word;
    assert a == q * word + a % word;
    ModPlusMultiple(a % word + b, q, word);
  }

  lemma {:induction false} ModPlusMultiple(a: nat, q: nat, word: nat)
    requires word > 0
    ensures (a + q * word) % word == a % word
  {
    if q > 0 {
      ModPlusMultiple(a, q - 1, word);
      assert a + q * word == a + (q - 1) * word + word;
      ModPlusOne(a + (q - 1) * word, word);
    }
  }

  lemma ModPlusOne(a: nat, word: nat)
    requires word > 0
    ensures (a + word) % word == a % word
  {
    var q, r := a / word, a % word;
    assert a + word == (q + 1) * word + r;
    ModUnique(a + word, word, q + 1, r);
  }

  lemma ModUnique(a: nat, word: nat, q: nat, r: nat)
    requires word > 0 && r < word && a == q * word + r
    ensures a % word == r
  {
    var q', r' := a / word, a % word;
    assert a == q' * word + r' && 0 <= r' < word;
    MulOrder(q, q', word);
    MulOrder(q', q, word);
  }

  lemma MulOrder(q: nat, q': nat, word: nat)
    ensures q < q' ==> q * word + word <= q' * word
  {
    if q < q' {
      MulMonotone(q + 1, q', word);
      assert (q + 1) * word == q * word + word;
    }
  }

  lemma MulMonotone(a: nat, b: nat, c: nat)
    requires a <= b
    ensures a * c <= b * c
  {
  }

  // ---- numbers and slices at a position ----

  function SliceBytes(s: Bytes): Bytes {
    EncodeVarint(|s| % WORD) + s
  }

  /** A 32-bit varint at `p` and where it ends. */
  function Word32At(bytes: Bytes, p: nat): (r: Option<(nat, nat)>)
    ensures r.Some? ==> p < r.value.1 <= |bytes|
  {
    var v := VarintAt(bytes, p, |bytes|, 5);
    if v.None? then None else Some((v.value.0 % WORD, p + v.value.1))
  }

  function Word64At(bytes: Bytes, p: nat): (r: Option<(nat, nat)>)
    ensures r.Some? ==> p < r.value.1 <= |bytes|
  {
    var v := VarintAt(bytes, p, |bytes|, 10);
    if v.None? then None else Some((v.value.0 % DOUBLE_WORD, p + v.value.1))
  }

  /** A length-prefixed slice at `p`; None if it would run past the end. */
  function SliceAt(bytes: Bytes, p: nat): (r: Option<(Bytes, nat)>)
    ensures r.Some? ==> p < r.value.1 <= |bytes|
  {
    var v := Word32At(bytes, p);
    if v.None? || v.value.1 + v.value.0 > |bytes| then None
    else Some((bytes[v.value.1..v.value.1 + v.value.0], v.value.1 + v.value.0))
  }

  method PutSlice(dst: Bytes, s: Bytes) returns (dst': Bytes)
    ensures dst' == dst + SliceBytes(s)
  {
    var length := EncodeVarint32(|s| % WORD);
    dst' := dst + length;
    dst' := dst' + s;
  }

  method PutNumber(dst: Bytes, n: nat) returns (dst': Bytes)
    ensures dst' == dst + EncodeVarint(n)
  {
    var number := EncodeVarint64(n);
    dst' := dst + number;
  }

  /** `part` lies at `p`. */
  predicate Has(bytes: Bytes, p: nat, part: Bytes) {
    p + |part| <= |bytes| && bytes[p..p + |part|] == part
  }

  lemma HasSplit(bytes: Bytes, p: nat, a: Bytes, b: Bytes)
    requires Has(bytes, p, a + b)
    ensures Has(bytes, p, a) && Has(bytes, p + |a|, b)
  {
    assert bytes[p..p + |a|] == bytes[p..p + |a + b|][..|a|];
    assert bytes[p + |a|..p + |a| + |b|] == bytes[p..p + |a + b|][|a|..];
  }

  lemma PowersOf128()
    ensures Power128(5) >= WORD && Power128(10) >= DOUBLE_WORD
  {
    assert Power128(2) == 0x4000;
    assert Power128(5) == 0x8_0000_0000;
    assert Power128(6) == 0x400_0000_0000;
    assert Power128(8) == 0x100_0000_0000_0000;
  }

  lemma Word32RoundTrip(bytes: Bytes, p: nat, n: nat)
    requires n < WORD && Has(bytes, p, EncodeVarint(n))
    ensures Word32At(bytes, p) == Some((n, p + |EncodeVarint(n)|))
  {
    hide EncodeVarint, VarintAt, Power128;
    PowersOf128();
    VarintRoundTrip(n, bytes, p, |bytes|, 5);
  }

  lemma Word64RoundTrip(bytes: Bytes, p: nat, n: nat)
    requires n < DOUBLE_WORD && Has(bytes, p, EncodeVarint(n))
    ensures Word64At(bytes, p) == Some((n, p + |EncodeVarint(n)|))
  {
    hide EncodeVarint, VarintAt, Power128;
    PowersOf128();
    VarintRoundTrip(n, bytes, p, |bytes|, 10);
  }

  lemma SliceRoundTrip(bytes: Bytes, p: nat, s: Bytes)
    requires |s| < WORD && Has(bytes, p, SliceBytes(s))
    ensures SliceAt(bytes, p) == Some((s, p + |SliceBytes(s)|))
  {
    hide EncodeVarint, Word32At;
    HasSplit(bytes, p, EncodeVarint(|s|), s);
    Word32RoundTrip(bytes, p, |s|);
  }

  /** The bytes end inside what was written at `p`. */
  predicate CutOff(bytes: Bytes, p: nat, whole: Bytes, cut: nat) {
    cut < |whole| && p + cut == |bytes| && bytes[p..] == whole[..cut]
  }

  lemma CutSplit(bytes: Bytes, p: nat, a: Bytes, b: Bytes, cut: nat)
    requires CutOff(bytes, p, a + b, cut)
    ensures if cut < |a| then CutOff(bytes, p, a, cut) else Has(bytes, p, a) && CutOff(bytes, p + |a|, b, cut - |a|)
  {
    if cut < |a| {
      assert (a + b)[..cut] == a[..cut];
    } else {
      assert bytes[p..p + |a|] == bytes[p..][..|a|] == (a + b)[..cut][..|a|] == a;
      assert bytes[p + |a|..] == bytes[p..][|a|..] == (a + b)[..cut][|a|..] == b[..cut - |a|];
    }
  }

  /** A slice that is cut off cannot be read. */
  lemma SliceCut(bytes: Bytes, p: nat, s: Bytes, cut: nat)
    requires |s| < WORD && CutOff(bytes, p, SliceBytes(s), cut)
    ensures SliceAt(bytes, p) == None
  {
    hide EncodeVarint, VarintAt, Has;
    var e := EncodeVarint(|s|);
    CutSplit(bytes, p, e, s, cut);
    if cut < |e| {
      VarintUnended(bytes, p, |s|, cut);
      UnendedVarint(bytes, p, 5);
    } else {
      Word32RoundTrip(bytes, p, |s|);
    }
  }

  function Zeros(n: nat): (z: Bytes)
    ensures |z| == n && forall b :: b in z ==> b == 0
  {
    if n == 0 then [] else Zeros(n - 1) + [0]
  }
}
