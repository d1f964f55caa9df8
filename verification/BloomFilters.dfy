/** The Bloom filter policy (util/bloom.cc), for any 32-bit hash function. */
module BloomFilters {
  import opened Coding

  // ---- bits of a byte array ----

  predicate Bit(b: Byte, k: nat)
    requires k < 8
  {
    (b as bv8) & ((1 as bv8) << k) != 0
  }

  function SetBit(b: Byte, k: nat): Byte
    requires k < 8
  {
    ToByte((b as bv8) | ((1 as bv8) << k))
  }

  function ToByte(x: bv8): (b: Byte)
    ensures b as bv8 == x
  {
    x as int
  }

  lemma OrAnd(x: bv8, y: bv8, z: bv8)
    ensures (x | y) & z != 0 <==> x & z != 0 || y & z != 0
  {
  }

  lemma ShiftsApart(k: nat, j: nat)
    requires k < 8 && j < 8
    ensures ((1 as bv8) << k) & ((1 as bv8) << j) != 0 <==> k == j
  {
  }

  /** Setting a bit sets it and changes no other. */
  lemma SetBitExact(b: Byte, k: nat, j: nat)
    requires k < 8 && j < 8
    ensures Bit(SetBit(b, k), j) <==> Bit(b, j) || j == k
  {
    OrAnd(b as bv8, (1 as bv8) << k, (1 as bv8) << j);
    ShiftsApart(k, j);
  }

  predicate TestBit(slots: Bytes, pos: nat)
    requires pos < 8 * |slots|
  {
    Bit(slots[pos / 8], pos % 8)
  }

  function WithBit(slots: Bytes, pos: nat): Bytes
    requires pos < 8 * |slots|
  {
    slots[pos / 8 := SetBit(slots[pos / 8], pos % 8)]
  }

  lemma WithBitExact(slots: Bytes, pos: nat, other: nat)
    requires pos < 8 * |slots| && other < 8 * |slots|
    ensures TestBit(WithBit(slots, pos), other) <==> TestBit(slots, other) || other == pos
  {
    if other / 8 == pos / 8 { SetBitExact(slots[pos / 8], pos % 8, other % 8); }
  }

  // ---- probes ----

  /** Rotates a 32-bit word right by 17 bits. */
  function Delta(h: nat): (d: nat)
    requires h < WORD
    ensures d < WORD
  {
    h / 0x2_0000 + (h % 0x2_0000) * 0x8000
  }

  /** The j-th hash value of double hashing, modulo 2^32. */
  function Probe(h: nat, j: nat): (p: nat)
    requires h < WORD
    ensures p < WORD
  {
    if j == 0 then h else (Probe(h, j - 1) + Delta(h)) % WORD
  }

  lemma NextProbe(h: nat, j: nat)
    requires h < WORD
    ensures Probe(h, 0) == h && Probe(h, j + 1) == (Probe(h, j) + Delta(h)) % WORD
  {
  }

  /** The 32-bit rotation and its inverse. */
  lemma DeltaRotates(h: nat)
    requires h < WORD
    ensures Delta(h) % 0x8000 == h / 0x2_0000 && Delta(h) / 0x8000 == h % 0x2_0000
  {
    var high, low := h / 0x2_0000, h % 0x2_0000;
    assert high < 0x8000 && Delta(h) == high + low * 0x8000;
  }

  /** The probes are an arithmetic progression. */
  lemma {:induction false} ProbeIs(h: nat, j: nat)
    requires h < WORD
    ensures Probe(h, j) == (h + j * Delta(h)) % WORD
  {
    hide Delta, Probe;
    if j == 0 {
      NextProbe(h, 0);
      ModUnique(h, WORD, 0, h);
    } else {
      ProbeIs(h, j - 1);
      NextProbe(h, j - 1);
      OneMore(h, j, Delta(h));
      AddRest(h + (j - 1) * Delta(h), Delta(h));
    }
  }

  lemma OneMore(h: nat, j: nat, d: nat)
    requires j > 0
    ensures h + j * d == h + (j - 1) * d + d
  {
  }

  lemma AddRest(a: nat, b: nat)
    ensures (a % WORD + b) % WORD == (a + b) % WORD
  {
  }

  function Hashed(hash: Bytes -> nat, key: Bytes): (h: nat)
    ensures h < WORD
  {
    hash(key) % WORD
  }

  /** The first `n` probes of the key all find their bit set. */
  ghost predicate Probed(hash: Bytes -> nat, slots: Bytes, key: Bytes, n: nat) {
    |slots| > 0 && forall j :: 0 <= j < n ==> ProbeHits(hash, slots, key, j)
  }

  predicate ProbeHits(hash: Bytes -> nat, slots: Bytes, key: Bytes, j: nat)
    requires |slots| > 0
  {
    TestBit(slots, Probe(Hashed(hash, key), j) % (8 * |slots|))
  }

  /** What a reader tests: the last byte is the number of probes; numbers above 30 are
      reserved and match everything. */
  ghost predicate MayMatch(hash: Bytes -> nat, key: Bytes, filter: Bytes) {
    var n := |filter| - 1;
    n >= 1 && (filter[n] > 30 || Probed(hash, filter[..n], key, filter[n]))
  }

  /** Some probe of some of the keys lands on the bit. */
  ghost predicate Hit(hash: Bytes -> nat, keys: set<Bytes>, k: nat, bits: nat, pos: nat)
    requires bits > 0
  {
    exists key, j: nat :: key in keys && j < k && Lands(hash, key, j, bits, pos)
  }

  predicate Lands(hash: Bytes -> nat, key: Bytes, j: nat, bits: nat, pos: nat)
    requires bits > 0
  {
    Probe(Hashed(hash, key), j) % bits == pos
  }

  /** The bits that are set are those the probes of the keys land on, and no others. */
  ghost predicate ExactBits(hash: Bytes -> nat, keys: set<Bytes>, k: nat, slots: Bytes) {
    |slots| > 0 && forall pos: nat :: pos < 8 * |slots| ==>
      (TestBit(slots, pos) <==> Hit(hash, keys, k, 8 * |slots|, pos))
  }

  /** The last byte is the number of probes. */
  ghost predicate IsFilterOf(hash: Bytes -> nat, keys: set<Bytes>, filter: Bytes) {
    var n := |filter| - 1;
    n >= 1 && 1 <= filter[n] <= 30 && ExactBits(hash, keys, filter[n], filter[..n])
  }

  /** Each probe of the key lands where one of some key of the filter does. */
  ghost predicate AllHit(hash: Bytes -> nat, keys: set<Bytes>, k: nat, bits: nat, key: Bytes)
    requires bits > 0
  {
    forall j :: 0 <= j < k ==> Hit(hash, keys, k, bits, Probe(Hashed(hash, key), j) % bits)
  }

  /** A filter matches exactly the keys all of whose probes land where probes of its own keys
      do; these among them. */
  lemma FilterMatches(hash: Bytes -> nat, keys: set<Bytes>, filter: Bytes, key: Bytes)
    requires IsFilterOf(hash, keys, filter)
    ensures |filter| >= 2
    ensures MayMatch(hash, key, filter) <==>
            AllHit(hash, keys, filter[|filter| - 1], 8 * (|filter| - 1), key)
    ensures key in keys ==> MayMatch(hash, key, filter)
  {
    hide TestBit, Hashed, Probe, Hit;
    var slots := filter[..|filter| - 1];
    var bits, k := 8 * |slots|, filter[|filter| - 1] as nat;
    assert MayMatch(hash, key, filter) <==> Probed(hash, slots, key, k);
    if key in keys {
      forall j | 0 <= j < k ensures Hit(hash, keys, k, bits, Probe(Hashed(hash, key), j) % bits) {
        OwnHit(hash, keys, k, bits, key, j);
      }
    }
    if Probed(hash, slots, key, k) {
      forall j | 0 <= j < k ensures Hit(hash, keys, k, bits, Probe(Hashed(hash, key), j) % bits) {
        assert ProbeHits(hash, slots, key, j);
      }
    }
  }

  lemma OwnHit(hash: Bytes -> nat, keys: set<Bytes>, k: nat, bits: nat, key: Bytes, j: nat)
    requires key in keys && j < k && bits > 0
    ensures Hit(hash, keys, k, bits, Probe(Hashed(hash, key), j) % bits)
  {
    assert Lands(hash, key, j, bits, Probe(Hashed(hash, key), j) % bits);
  }

  /** One more probe of a key, or all of them. */
  lemma HitMore(hash: Bytes -> nat, keys: set<Bytes>, k: nat, bits: nat, key: Bytes, n: nat)
    requires bits > 0
    ensures forall pos: nat :: Hit(hash, {key}, n + 1, bits, pos) <==>
              Hit(hash, {key}, n, bits, pos) || Lands(hash, key, n, bits, pos)
    ensures forall pos: nat :: Hit(hash, keys + {key}, k, bits, pos) <==>
              Hit(hash, keys, k, bits, pos) || Hit(hash, {key}, k, bits, pos)
  {
    hide Lands;
  }

  class BloomFilterPolicy {
    const hash: Bytes -> nat
    const bitsPerKey: nat
    const k: nat

    /** The number of probes is about 0.69 per bit, between 1 and 30. */
    constructor (hash: Bytes -> nat, bitsPerKey: nat)
      ensures 1 <= k <= 30 && this.hash == hash && this.bitsPerKey == bitsPerKey
      ensures (1 < k ==> 100 * k <= 69 * bitsPerKey) && (k < 30 ==> 69 * bitsPerKey < 100 * (k + 1))
    {
      var probes := bitsPerKey * 69 / 100;
      this.hash, this.bitsPerKey := hash, bitsPerKey;
      k := if probes < 1 then 1 else if probes > 30 then 30 else probes;
    }

    /** Sets the bits of one key and no others. */
    method AddToFilter(slots: Bytes, key: Bytes, ghost others: set<Bytes>) returns (slots': Bytes)
      requires ExactBits(hash, others, k, slots)
      ensures |slots'| == |slots| && ExactBits(hash, others + {key}, k, slots')
    {
      hide TestBit, WithBit, Delta, Hashed, Hit, Lands;
      slots' := slots;
      var bits := 8 * |slots|;
      var h := Hashed(hash, key);
      var delta := Delta(h);
      var probe := h;
      NoneHit(hash, {key}, bits);
      for j := 0 to k
        invariant |slots'| == |slots| && probe == Probe(h, j)
        invariant forall pos: nat :: pos < bits ==>
                    (TestBit(slots', pos) <==> TestBit(slots, pos) || Hit(hash, {key}, j, bits, pos))
      {
        var pos := probe % bits;
        SizeKept(slots', pos);
        HitMore(hash, others, k, bits, key, j);
        ProbeSet(hash, slots', key, j, bits);
        slots' := WithBit(slots', pos);
        probe := (probe + delta) % WORD;
      }
      HitMore(hash, others, k, bits, key, k);
    }

    /** A filter for the keys: its bits are exactly those that the probes of the keys land on,
        and there are `bitsPerKey` for each key, but at least 64. */
    method CreateFilter(keys: seq<Bytes>) returns (filter: Bytes)
      requires 1 <= k <= 30
      ensures IsFilterOf(hash, (set key | key in keys), filter) && filter[|filter| - 1] == k
      ensures var wanted := if |keys| * bitsPerKey < 64 then 64 else |keys| * bitsPerKey;
        wanted <= 8 * (|filter| - 1) < wanted + 8
    {
      hide ExactBits;
      var bits := |keys| * bitsPerKey;
      if bits < 64 {
        bits := 64;
      }
      var bytes := (bits + 7) / 8;
      var slots: Bytes := Zeros(bytes);
      NothingSet(hash, bytes, k);
      ghost var some: set<Bytes> := {};
      for i := 0 to |keys|
        invariant |slots| == bytes && some == (set key | key in keys[..i]) && ExactBits(hash, some, k, slots)
      {
        slots := AddToFilter(slots, keys[i], some);
        assert keys[..i + 1] == keys[..i] + [keys[i]];
        some := some + {keys[i]};
      }
      assert keys[..|keys|] == keys;
      filter := slots + [k];
      assert filter[..|filter| - 1] == slots;
    }

    /** Whether the key may be among those of the filter. */
    method KeyMayMatch(key: Bytes, filter: Bytes) returns (r: bool)
      ensures r <==> MayMatch(hash, key, filter)
      ensures |filter| < 2 ==> !r
      ensures |filter| >= 2 && filter[|filter| - 1] > 30 ==> r
    {
      hide Delta, TestBit, Hashed, Probe;
      if |filter| < 2 {
        return false;
      }
      var slots := filter[..|filter| - 1];
      var bits := 8 * |slots|;
      var probes: nat := filter[|filter| - 1];
      if probes > 30 {
        return true;
      }
      var h := Hashed(hash, key);
      var delta := Delta(h);
      var probe := h;
      NextProbe(h, 0);
      for j := 0 to probes
        invariant probe == Probe(h, j) && Probed(hash, slots, key, j)
      {
        if !TestBit(slots, probe % bits) {
          assert !ProbeHits(hash, slots, key, j);
          return false;
        }
        assert ProbeHits(hash, slots, key, j);
        NextProbe(h, j);
        probe := (probe + delta) % WORD;
      }
      return true;
    }
  }

  lemma SizeKept(slots: Bytes, pos: nat)
    requires pos < 8 * |slots|
    ensures |WithBit(slots, pos)| == |slots|
  {
  }

  lemma NoneHit(hash: Bytes -> nat, keys: set<Bytes>, bits: nat)
    requires bits > 0
    ensures forall pos: nat :: !Hit(hash, keys, 0, bits, pos)
  {
  }

  /** Setting the bit a probe lands on. */
  lemma ProbeSet(hash: Bytes -> nat, slots: Bytes, key: Bytes, j: nat, bits: nat)
    requires bits == 8 * |slots| && bits > 0
    ensures |WithBit(slots, Probe(Hashed(hash, key), j) % bits)| == |slots|
    ensures forall pos: nat :: pos < bits ==>
              (TestBit(WithBit(slots, Probe(Hashed(hash, key), j) % bits), pos) <==>
              TestBit(slots, pos) || Lands(hash, key, j, bits, pos))
  {
    hide TestBit, WithBit;
    SizeKept(slots, Probe(Hashed(hash, key), j) % bits);
    forall pos: nat | pos < bits
      ensures TestBit(WithBit(slots, Probe(Hashed(hash, key), j) % bits), pos) <==>
              TestBit(slots, pos) || Lands(hash, key, j, bits, pos)
    {
      WithBitExact(slots, Probe(Hashed(hash, key), j) % bits, pos);
    }
  }

  lemma NothingSet(hash: Bytes -> nat, bytes: nat, k: nat)
    requires bytes > 0
    ensures ExactBits(hash, {}, k, Zeros(bytes))
  {
    forall pos: nat | pos < 8 * bytes ensures !TestBit(Zeros(bytes), pos) {
      ZerosAre(bytes, pos / 8);
      ZeroBit(pos % 8);
    }
  }

  lemma {:induction false} ZerosAre(n: nat, i: nat)
    requires i < n
    ensures Zeros(n)[i] == 0
  {
    if i < n - 1 { ZerosAre(n - 1, i); }
  }

  lemma ZeroBit(k: nat)
    requires k < 8
    ensures !Bit(0, k)
  {
  }
}
