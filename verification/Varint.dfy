/** Base-128 variable-length integers of netty/utils/binary.go: the two byte-level loops, an
    independent characterisation of what they compute, and the laws a frame header relies on. */
module Varint {
  import opened Bits

  // ----- the reference reading of a byte string -----

  /** Position of the first byte below 0x80, or the length when there is none. */
  function Terminator(b: seq<byte>): (t: nat)
    ensures t <= |b|
    ensures forall i :: 0 <= i < t ==> b[i] >= 128
    ensures t < |b| ==> b[t] < 128
  {
    if b == [] || b[0] < 128 then 0 else 1 + Terminator(b[1..])
  }

  /** The number a little-endian string of seven-bit groups denotes, continuation bits dropped. */
  function Value(b: seq<byte>): nat {
    if b == [] then 0 else b[0] % 128 + 128 * Value(b[1..])
  }

  /** A terminator this late, or this large at index 5, is reported as an overflow. */
  predicate Overflows(t: nat, last: byte) {
    t > 5 || (t == 5 && last > 1)
  }

  /** What decoding means: (value, bytes read), with a count of 0 for "incomplete" and a negative
      count for "overflow". */
  function Decoded(b: seq<byte>): (r: (uint32, int))
    ensures r.1 <= |b|
    ensures r.1 <= 0 ==> r.0 == 0
  {
    var t := Terminator(b);
    if t == |b| then (0, 0)
    else if Overflows(t, b[t]) then (0, -(t + 1))
    else (Value(b[..t + 1]) % TWO_32, t + 1)
  }

  /** The canonical encoding: seven bits at a time, continuation bit on all but the last group. */
  function Encoded(x: nat): (e: seq<byte>)
    ensures |e| > 0
  {
    if x < 128 then [x] else [x % 128 + 128] + Encoded(x / 128)
  }

  // ----- the loops of the source -----

  /** PutUvarint32. The buffer must be long enough, as the source says it panics otherwise. */
  method PutUvarint32(buf: array<byte>, x: uint32) returns (n: nat)
    requires |Encoded(x)| <= buf.Length
    modifies buf
    ensures n == |Encoded(x)|
    ensures buf[..n] == Encoded(x)
    ensures buf[n..] == old(buf[n..])
  {
    hide Or;
    var i, v: uint32 := 0, x;
    while v >= 0x80
      invariant i + |Encoded(v)| == |Encoded(x)|
      invariant buf[..i] + Encoded(v) == Encoded(x)
      invariant forall k :: i <= k < buf.Length ==> buf[k] == old(buf[k])
      decreases v
    {
      ContinuationByte(v);
      ghost var before, rest := buf[..i], Encoded(v / 128);
      assert Encoded(v) == [v % 128 + 128] + rest;
      buf[i] := Or(v % 256, 0x80);
      assert buf[..i + 1] == before + [v % 128 + 128];
      assert before + [v % 128 + 128] + rest == before + ([v % 128 + 128] + rest);
      v := v / 128;
      i := i + 1;
    }
    ghost var before := buf[..i];
    buf[i] := v;
    assert buf[..i + 1] == before + [v];
    n := i + 1;
  }

  lemma ContinuationByte(v: nat)
    ensures Or(v % 256, 0x80) == v % 128 + 128
  {
    hide *;
    Pow2Values();
    OrTopBit(v % 256, 7);
    assert v % 256 % 128 == v % 128;
  }

  /** Uvarint32: the accumulating loop computes the reference reading of its input. */
  method Uvarint32(buf: seq<byte>) returns (x: uint32, n: int)
    ensures (x, n) == Decoded(buf)
  {
    hide Or, Shl32, Terminator;
    var acc: uint32, s: nat := 0, 0;
    for i := 0 to |buf|
      invariant s == 7 * i
      invariant i <= Terminator(buf)
      invariant acc == Value(buf[..i]) % TWO_32
    {
      var b := buf[i];
      AccumulateGroup(buf, i);
      if b < 0x80 {
        if i > 5 || (i == 5 && b > 1) {
          return 0, -(i + 1);
        }
        return Or(acc, Shl32(b, s)), i + 1;
      }
      acc := Or(acc, Shl32(b % 128, s));
      s := s + 7;
    }
    return 0, 0;
  }

  // ----- why the accumulating loop is right -----

  function Pow128(k: nat): (p: nat)
    ensures p > 0
  {
    Pow2(7 * k)
  }

  lemma Pow128Step(k: nat)
    ensures Pow128(k + 1) == 128 * Pow128(k)
  {
    Pow2Add(7, 7 * k);
    assert Pow2(7) == 128;
  }

  lemma {:induction false} ValueSnoc(b: seq<byte>, last: byte)
    ensures Value(b) < Pow128(|b|)
    ensures Value(b + [last]) == Value(b) + last % 128 * Pow128(|b|)
  {
    if b == [] {
      assert b + [last] == [last];
    } else {
      ValueSnoc(b[1..], last);
      assert (b + [last])[1..] == b[1..] + [last];
      Pow128Step(|b| - 1);
      hide Pow128;
      Regroup(last % 128, Pow128(|b| - 1), Value(b[1..]), b[0] % 128);
    }
  }

  lemma Regroup(group: nat, p: nat, v: nat, low: nat)
    requires v < p && low < 128
    ensures low + 128 * (v + group * p) == low + 128 * v + group * (128 * p)
    ensures low + 128 * v < 128 * p
  {
  }

  /** Or-ing a shifted seven-bit group into the truncated accumulator adds it, modulo 2^32. */
  lemma OrGroup(v: nat, group: nat, k: nat)
    requires v < Pow128(k) && group < 128
    ensures Or(v % TWO_32, Shl32(group, 7 * k)) == (v + group * Pow128(k)) % TWO_32
  {
    Pow2Values();
    if k <= 4 {
      OrGroupInside(v, group, 7 * k);
    } else {
      var m := Pow2(7 * k - 32);
      Pow2Add(7 * k - 32, 32);
      assert group * Pow128(k) == (group * m) * TWO_32;
      ModUnique((group * m) * TWO_32, TWO_32, group * m, 0);
      ModUnique(v + (group * m) * TWO_32, TWO_32, v / TWO_32 + group * m, v % TWO_32);
      OrZero(v % TWO_32);
    }
  }

  lemma OrGroupInside(v: nat, group: nat, s: nat)
    requires s <= 32 && v < Pow2(s)
    ensures Or(v % TWO_32, Shl32(group, s)) == (v + group * Pow2(s)) % TWO_32
  {
    hide Or, Pow2;
    var p, m := Pow2(s), Pow2(32 - s);
    assert m * p == TWO_32 by {
      Pow2Add(32 - s, s);
      Pow2Values();
    }
    var h, q := group % m, group / m;
    GroupSplit(group, m, p);
    assert v + h * p < TWO_32 by {
      MulMono(h + 1, m, p);
    }
    ModUnique(group * p, TWO_32, q, h * p);
    ModUnique(v + group * p, TWO_32, q, v + h * p);
    ModUnique(v, TWO_32, 0, v);
    OrDisjoint(v, h, s);
  }

  lemma GroupSplit(group: nat, m: nat, p: nat)
    requires m > 0
    ensures group * p == group / m * (m * p) + group % m * p
  {
    assert group == group / m * m + group % m;
    assert group / m * m * p == group / m * (m * p);
  }

  /** One turn of the decoding loop, seen from the reference reading. */
  lemma AccumulateGroup(buf: seq<byte>, i: nat)
    requires i < |buf| && i <= Terminator(buf)
    ensures buf[i] < 128 <==> Terminator(buf) == i
    ensures Or(Value(buf[..i]) % TWO_32, Shl32(buf[i] % 128, 7 * i)) == Value(buf[..i + 1]) % TWO_32
  {
    hide *;
    var v, g := Value(buf[..i]), buf[i] % 128;
    ValueSnoc(buf[..i], buf[i]);
    assert buf[..i + 1] == buf[..i] + [buf[i]];
    OrGroup(v, g, i);
  }

  // ----- laws of the encoding -----

  /** The encoding reads back, whatever follows it, and consumes exactly its own bytes. */
  lemma {:induction false} RoundTrip(x: uint32, suffix: seq<byte>)
    ensures Decoded(Encoded(x) + suffix) == (x, |Encoded(x)|)
  {
    EncodedShape(x, suffix);
    EncodedLength(x, 5);
    assert Pow128(5) >= TWO_32 by {
      Pow2Values();
    }
    var t := |Encoded(x)| - 1;
    assert (Encoded(x) + suffix)[..t + 1] == Encoded(x);
  }

  lemma {:induction false} EncodedShape(x: nat, suffix: seq<byte>)
    ensures Terminator(Encoded(x) + suffix) == |Encoded(x)| - 1
    ensures Value(Encoded(x)) == x
  {
    if x >= 128 {
      EncodedShape(x / 128, suffix);
      var e := Encoded(x);
      assert e[1..] == Encoded(x / 128);
      assert (e + suffix)[1..] == Encoded(x / 128) + suffix;
    }
  }

  /** The length law: n bytes suffice exactly for the numbers below 128^n. */
  lemma {:induction false} EncodedLength(x: nat, n: nat)
    requires n > 0
    ensures |Encoded(x)| <= n <==> x < Pow128(n)
  {
    Pow128Step(n - 1);
    if n == 1 {
      assert Pow128(0) == 1;
    } else if x >= 128 {
      EncodedLength(x / 128, n - 1);
    } else {
      MulMono(1, Pow128(n - 1), 128);
    }
  }

  /** Every proper prefix of an encoding is reported as incomplete. */
  lemma {:induction false} PrefixIncomplete(x: uint32, k: nat)
    requires k < |Encoded(x)|
    ensures Terminator(Encoded(x)[..k]) == k
    ensures Decoded(Encoded(x)[..k]) == (0, 0)
  {
    EncodedShape(x, []);
    assert Encoded(x) + [] == Encoded(x);
    assert forall i :: 0 <= i < k ==> Encoded(x)[..k][i] == Encoded(x)[i] >= 128;
  }

  /** No shorter byte string decodes to x: the encoding is minimal. */
  lemma Minimal(x: uint32, b: seq<byte>)
    requires Decoded(b) == (x, |b|) && b != []
    ensures |Encoded(x)| <= |b|
  {
    hide Value, Encoded, Pow2;
    assert b[..|b|] == b;
    ValueBound(b);
    Pow2Values();
    if |b| <= 4 {
      Pow2Mono(7 * |b|, 28);
      EncodedLength(x, |b|);
    } else {
      EncodedLength(x, 5);
    }
  }

  lemma ValueBound(b: seq<byte>)
    ensures Value(b) < Pow128(|b|)
  {
    ValueSnoc(b, 0);
  }

  /** More input never changes a header that already had its terminator. */
  lemma {:induction false} TerminatorStable(b: seq<byte>, more: seq<byte>)
    ensures Terminator(b) < |b| ==> Terminator(b + more) == Terminator(b)
    ensures Terminator(b) == |b| ==> Terminator(b + more) >= |b|
  {
    if b != [] && b[0] >= 128 {
      TerminatorStable(b[1..], more);
      assert (b + more)[1..] == b[1..] + more;
    } else if b != [] {
      assert (b + more)[0] == b[0];
    }
  }

  lemma DecodedStable(b: seq<byte>, more: seq<byte>)
    requires Decoded(b).1 != 0
    ensures Decoded(b + more) == Decoded(b)
  {
    TerminatorStable(b, more);
    var t := Terminator(b);
    assert (b + more)[..t + 1] == b[..t + 1];
  }

  // ----- where the code parts from its comment -----

  /** The comment promises a negative count for a value above 32 bits. Exactly these terminated
      strings break the promise: they are accepted and their value is cut to 32 bits. */
  lemma SilentTruncationIff(b: seq<byte>)
    requires Terminator(b) < |b|
    ensures var t := Terminator(b);
            (Decoded(b).1 > 0 && Value(b[..t + 1]) >= TWO_32) <==>
            (t == 4 && b[4] >= 16) || (t == 5 && (b[5] == 1 || (b[5] == 0 && b[4] >= 144)))
  {
    hide Terminator, Value, Pow2;
    var t := Terminator(b);
    if t <= 3 {
      ValueBound(b[..t + 1]);
      Pow2Values();
      Pow2Mono(7 * (t + 1), 28);
    } else if t == 4 {
      FifthByteDecides(b[..5]);
    } else if t == 5 && b[5] <= 1 {
      FifthByteDecides(b[..5]);
      SixthByteDecides(b[..6]);
      assert b[..6][..5] == b[..5];
    }
  }

  lemma FifthByteDecides(b: seq<byte>)
    requires |b| == 5
    ensures Value(b) >= TWO_32 <==> b[4] % 128 >= 16
  {
    hide Value, Pow2;
    ValueSnoc(b[..4], b[4]);
    assert b == b[..4] + [b[4]];
    Pow2Values();
  }

  lemma SixthByteDecides(b: seq<byte>)
    requires |b| == 6 && b[5] <= 1
    ensures Value(b) >= TWO_32 <==> b[5] == 1 || Value(b[..5]) >= TWO_32
  {
    hide Value, Pow2;
    ValueSnoc(b[..5], b[5]);
    assert b == b[..5] + [b[5]];
    Pow2Values();
  }

  lemma Pow2Mono(a: nat, b: nat)
    requires a <= b
    ensures Pow2(a) <= Pow2(b)
  {
    Pow2Add(a, b - a);
    MulMono(1, Pow2(b - a), Pow2(a));
  }

  /** A six-byte string for 2^35 that decodes to 0 without an error. */
  lemma SilentTruncationExample()
    ensures var b := [128, 128, 128, 128, 128, 1];
            Value(b) == 0x8_0000_0000 && Decoded(b) == (0, 6)
  {
    var b := [128, 128, 128, 128, 128, 1];
    assert Terminator(b) == 5 by {
      assert b[0] >= 128 && b[1] >= 128 && b[2] >= 128 && b[3] >= 128 && b[4] >= 128;
    }
    assert b[..6] == b;
    var v: seq<byte> := b;
    assert v[1..] == [128, 128, 128, 128, 1];
    assert v[1..][1..] == [128, 128, 128, 1];
    assert v[1..][1..][1..] == [128, 128, 1];
    assert v[1..][1..][1..][1..] == [128, 1];
    assert v[1..][1..][1..][1..][1..] == [1];
    assert Value([1]) == 1;
    assert Value([128, 1]) == 128 * Value([1]);
    assert Value([128, 128, 1]) == 128 * Value([128, 1]);
    assert Value([128, 128, 128, 1]) == 128 * Value([128, 128, 1]);
    assert Value([128, 128, 128, 128, 1]) == 128 * Value([128, 128, 128, 1]);
  }
}
