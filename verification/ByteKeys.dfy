/** Keys as byte strings: the bytewise comparator and the internal key comparator over it
    (util/comparator.cc, db/dbformat.cc, db/dbformat.h). */
module ByteKeys {
  import opened InternalKeys
  import opened Coding

  // ---- the bytewise order ----

  /** The order of memcmp, a prefix before what extends it. */
  predicate BytesBefore(a: Bytes, b: Bytes) {
    if b == [] then false
    else if a == [] then true
    else if a[0] != b[0] then a[0] < b[0]
    else BytesBefore(a[1..], b[1..])
  }

  lemma {:induction false} BytesTransitive(a: Bytes, b: Bytes, c: Bytes)
    requires BytesBefore(a, b) && BytesBefore(b, c)
    ensures BytesBefore(a, c)
  {
    if a != [] && a[0] == b[0] && b[0] == c[0] { BytesTransitive(a[1..], b[1..], c[1..]); }
  }

  lemma {:induction false} BytesTotal(a: Bytes, b: Bytes)
    ensures BytesBefore(a, b) || a == b || BytesBefore(b, a)
    ensures !(BytesBefore(a, b) && BytesBefore(b, a)) && !BytesBefore(a, a)
  {
    if a != [] {
      if b != [] && a[0] == b[0] {
        BytesTotal(a[1..], b[1..]);
        assert a == [a[0]] + a[1..] && b == [b[0]] + b[1..];
      }
      BytesTotal(a[1..], a[1..]);
    }
  }

  lemma {:induction false} CommonPrefix(p: Bytes, a: Bytes, b: Bytes)
    ensures BytesBefore(p + a, p + b) == BytesBefore(a, b)
  {
    if p == [] {
      assert p + a == a && p + b == b;
    } else {
      assert (p + a)[1..] == p[1..] + a && (p + b)[1..] == p[1..] + b;
      CommonPrefix(p[1..], a, b);
    }
  }

  /** Keys differing first at `d` are ordered by that byte. */
  lemma DifferAt(a: Bytes, b: Bytes, d: nat)
    requires d < |a| && d < |b| && a[..d] == b[..d] && a[d] != b[d]
    ensures BytesBefore(a, b) == (a[d] < b[d])
  {
    assert a == a[..d] + a[d..] && b == b[..d] + b[d..];
    CommonPrefix(a[..d], a[d..], b[d..]);
  }

  /** The keys part at `d` with room for a byte between. */
  predicate Gap(start: Bytes, limit: Bytes, d: nat) {
    d < |start| && d < |limit| && start[..d] == limit[..d] && start[d] as int + 1 < limit[d] as int
  }

  /** Keys part at one place only. */
  lemma GapUnique(start: Bytes, limit: Bytes, d: nat, e: nat)
    requires Gap(start, limit, d)
    requires e < |start| && e < |limit| && start[..e] == limit[..e] && start[e] != limit[e]
    ensures d == e
  {
  }

  /** Shortens `start` to a key strictly between it and `limit`, or leaves it alone. */
  method FindShortestSeparator(start: Bytes, limit: Bytes) returns (r: Bytes)
    ensures r == start || (BytesBefore(start, r) && BytesBefore(r, limit) && |r| <= |start|)
    ensures r != start <==> exists d :: Gap(start, limit, d)
    ensures forall d: nat :: Gap(start, limit, d) ==> r == start[..d] + [start[d] + 1]
  {
    var minLength := if |start| < |limit| then |start| else |limit|;
    var diffIndex := 0;
    while diffIndex < minLength && start[diffIndex] == limit[diffIndex]
      invariant diffIndex <= minLength && start[..diffIndex] == limit[..diffIndex]
    {
      diffIndex := diffIndex + 1;
    }
    r := start;
    if diffIndex < minLength {
      var diffByte := start[diffIndex];
      if diffByte < 0xff && diffByte + 1 < limit[diffIndex] {
        r := r[diffIndex := diffByte + 1];
        r := r[..diffIndex + 1];
        assert r[..diffIndex] == start[..diffIndex];
        DifferAt(start, r, diffIndex);
        DifferAt(r, limit, diffIndex);
        assert Gap(start, limit, diffIndex);
        forall d: nat | Gap(start, limit, d) ensures d == diffIndex { GapUnique(start, limit, d, diffIndex); }
      }
    }
  }

  /** The first byte of the key that can be raised. */
  predicate Raisable(key: Bytes, i: nat) {
    i < |key| && key[i] != 0xff && forall j :: 0 <= j < i ==> key[j] == 0xff
  }

  /** Shortens `key` to a key after it, or leaves it alone. */
  method FindShortSuccessor(key: Bytes) returns (r: Bytes)
    ensures r == key || (BytesBefore(key, r) && |r| <= |key|)
    ensures r == key <==> forall i :: 0 <= i < |key| ==> key[i] == 0xff
    ensures forall i: nat :: Raisable(key, i) ==> r == key[..i] + [key[i] + 1]
    ensures r != key ==> exists i: nat :: Raisable(key, i)
  {
    for i := 0 to |key|
      invariant forall j :: 0 <= j < i ==> key[j] == 0xff
    {
      if key[i] != 0xff {
        r := key[i := key[i] + 1];
        r := r[..i + 1];
        assert r[..i] == key[..i];
        DifferAt(key, r, i);
        assert r[i] != key[i] && Raisable(key, i);
        return;
      }
    }
    r := key;
  }

  // ---- internal keys: a user key and eight bytes of sequence number and type ----

  const MAX_TRAILER: nat := MAX_SEQUENCE * 256 + 1

  function InternalBytes(user: Bytes, sequence: nat, kind: Kind): (k: Bytes)
    requires sequence <= MAX_SEQUENCE
    ensures |k| == |user| + 8
  {
    user + EncodeFixed64(sequence * 256 + (if kind.Value? then 1 else 0))
  }

  /** Anything shorter than a trailer has no user key; no such key is ever written. */
  function UserOf(k: Bytes): Bytes {
    if |k| < 8 then [] else k[..|k| - 8]
  }

  function TrailerOf(k: Bytes): nat {
    if |k| < 8 then 0 else DecodeFixed64(k[|k| - 8..])
  }

  /** User keys ascending, then trailers descending. */
  predicate KeyBefore(a: Bytes, b: Bytes) {
    BytesBefore(UserOf(a), UserOf(b)) || (UserOf(a) == UserOf(b) && TrailerOf(a) > TrailerOf(b))
  }

  lemma KeyTransitive(a: Bytes, b: Bytes, c: Bytes)
    requires KeyBefore(a, b) && KeyBefore(b, c)
    ensures KeyBefore(a, c)
  {
    hide BytesBefore;
    if BytesBefore(UserOf(a), UserOf(b)) && BytesBefore(UserOf(b), UserOf(c)) {
      BytesTransitive(UserOf(a), UserOf(b), UserOf(c));
    }
  }

  /** One of two keys comes first unless they agree in user key and trailer; never both. */
  lemma KeyTotal(a: Bytes, b: Bytes)
    ensures KeyBefore(a, b) || KeyBefore(b, a) || (UserOf(a) == UserOf(b) && TrailerOf(a) == TrailerOf(b))
    ensures !(KeyBefore(a, b) && KeyBefore(b, a)) && !KeyBefore(a, a)
  {
    hide BytesBefore;
    BytesTotal(UserOf(a), UserOf(b));
    BytesTotal(UserOf(a), UserOf(a));
  }

  /** If `b` is not before `a` and `b` is before `c`, then `a` is before `c`; likewise on the left. */
  lemma KeyWeakTransitive(a: Bytes, b: Bytes, c: Bytes)
    ensures !KeyBefore(b, a) && KeyBefore(b, c) ==> KeyBefore(a, c)
    ensures KeyBefore(a, b) && !KeyBefore(c, b) ==> KeyBefore(a, c)
    ensures !KeyBefore(b, a) && !KeyBefore(c, b) ==> !KeyBefore(c, a)
  {
    hide BytesBefore, TrailerOf, UserOf;
    KeyTotal(a, b);
    KeyTotal(b, c);
    KeyTotal(a, c);
    if KeyBefore(a, b) && KeyBefore(b, c) { KeyTransitive(a, b, c); }
  }

  lemma InternalParts(user: Bytes, sequence: nat, kind: Kind)
    requires sequence <= MAX_SEQUENCE
    ensures var k := InternalBytes(user, sequence, kind);
      UserOf(k) == user && TrailerOf(k) == sequence * 256 + (if kind.Value? then 1 else 0)
  {
    hide EncodeFixed64, DecodeFixed64;
    var k, n := InternalBytes(user, sequence, kind), sequence * 256 + (if kind.Value? then 1 else 0);
    Fixed64RoundTrip(n);
    assert k[..|k| - 8] == user && k[|k| - 8..] == EncodeFixed64(n);
  }

  /** The byte encoding keeps the order of internal keys, for any user keys in bytewise order. */
  lemma OrderKept(u: Bytes, s: nat, k: Kind, v: Bytes, t: nat, l: Kind)
    requires s <= MAX_SEQUENCE && t <= MAX_SEQUENCE
    ensures KeyBefore(InternalBytes(u, s, k), InternalBytes(v, t, l)) <==>
      BytesBefore(u, v) || (u == v && Packed(InternalKey(0, s, k)) > Packed(InternalKey(0, t, l)))
  {
    hide BytesBefore, InternalBytes;
    InternalParts(u, s, k);
    InternalParts(v, t, l);
  }

  /** Either the last key of a block itself, or a shorter user key between it and the next block's,
      with the earliest trailer there is. */
  ghost predicate SeparatorOf(sep: Bytes, last: Bytes) {
    sep == last || (BytesBefore(UserOf(last), UserOf(sep)) && TrailerOf(sep) == MAX_TRAILER && |sep| <= |last|)
  }

  /** The user key up to and with the byte where the keys part, raised by one and under the
      earliest trailer there is, if that is shorter; otherwise the first key itself. */
  ghost predicate ShortestSeparator(sep: Bytes, start: Bytes, limit: Bytes) {
    var u, v := UserOf(start), UserOf(limit);
    && (forall d: nat :: Gap(u, v, d) ==>
          sep == if d + 1 < |u| then InternalBytes(u[..d] + [u[d] + 1], MAX_SEQUENCE, Value) else start)
    && ((forall d: nat :: !Gap(u, v, d)) ==> sep == start)
  }

  /** Likewise with the first byte of the user key that can be raised. */
  ghost predicate ShortSuccessor(sep: Bytes, key: Bytes) {
    var u := UserOf(key);
    && (forall i: nat :: Raisable(u, i) ==>
          sep == if i + 1 < |u| then InternalBytes(u[..i] + [u[i] + 1], MAX_SEQUENCE, Value) else key)
    && ((forall i: nat :: !Raisable(u, i)) ==> sep == key)
  }

  method InternalSeparator(start: Bytes, limit: Bytes) returns (r: Bytes)
    requires |start| >= 8 && |limit| >= 8
    ensures SeparatorOf(r, start) && |r| <= |start| && ShortestSeparator(r, start, limit)
    ensures r != start ==> BytesBefore(UserOf(r), UserOf(limit))
    ensures KeyBefore(start, limit) ==> !KeyBefore(r, start) && KeyBefore(r, limit)
  {
    hide BytesBefore, EncodeFixed64, DecodeFixed64;
    var userStart, userLimit := UserOf(start), UserOf(limit);
    var tmp := FindShortestSeparator(userStart, userLimit);
    r := start;
    if |tmp| < |userStart| && BytesBefore(userStart, tmp) {
      InternalParts(tmp, MAX_SEQUENCE, Value);
      r := InternalBytes(tmp, MAX_SEQUENCE, Value);
    }
    KeyTotal(start, r);
  }

  lemma SuccessorIs(key: Bytes, tmp: Bytes)
    requires forall i: nat :: Raisable(UserOf(key), i) ==> tmp == UserOf(key)[..i] + [UserOf(key)[i] + 1]
    requires tmp != UserOf(key) ==> exists i: nat :: Raisable(UserOf(key), i)
    ensures ShortSuccessor(if |tmp| < |UserOf(key)| then InternalBytes(tmp, MAX_SEQUENCE, Value) else key, key)
  {
    hide InternalBytes, UserOf;
  }

  method InternalSuccessor(key: Bytes) returns (r: Bytes)
    requires |key| >= 8
    ensures SeparatorOf(r, key) && |r| <= |key| && !KeyBefore(r, key) && ShortSuccessor(r, key)
  {
    hide BytesBefore, EncodeFixed64, DecodeFixed64, Raisable, ShortSuccessor;
    var userKey := UserOf(key);
    var tmp := FindShortSuccessor(userKey);
    SuccessorIs(key, tmp);
    r := key;
    if |tmp| < |userKey| && BytesBefore(userKey, tmp) {
      InternalParts(tmp, MAX_SEQUENCE, Value);
      r := InternalBytes(tmp, MAX_SEQUENCE, Value);
    }
    KeyTotal(key, r);
  }
}
