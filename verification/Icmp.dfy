/** ICMP echo messages of common/ping.go: the marshalled form of RFC 792 with the Internet checksum of
    RFC 1071, and parsing it back. */
module Icmp {
  import opened Bits

  const ECHO_REPLY := 0
  const ECHO_REQUEST := 8
  const ECHO_REQUEST_V6 := 128
  const ECHO_REPLY_V6 := 129

  /** icmpEcho; the identifier and sequence number are plain ints. */
  datatype Echo = Echo(id: int, sequence: int, data: seq<byte>)

  datatype Body = None | Some(echo: Echo)

  datatype Message = Message(kind: int, code: int, checksum: int, body: Body)

  datatype Parsed = TooShort | Panic | Ok(message: Message)

  // ----- sums of sixteen-bit words -----

  function Word(low: byte, high: byte): (w: nat)
    ensures w <= 0xFFFF
  {
    low as int + 256 * high as int
  }

  /** The sum of the words of b, low byte first; an odd last byte stands alone. */
  function WordSum(b: seq<byte>): nat {
    if b == [] then 0
    else if |b| == 1 then Word(b[0], 0)
    else Word(b[0], b[1]) + WordSum(b[2..])
  }

  /** The same in network order, as a receiver reads it, an odd last byte padded with zero. */
  function NetworkSum(b: seq<byte>): nat {
    if b == [] then 0
    else if |b| == 1 then Word(0, b[0])
    else Word(b[1], b[0]) + NetworkSum(b[2..])
  }

  /** Ones'-complement addition of sixteen-bit words: the carry comes back in at the low end. */
  function OnesAdd(a: nat, b: nat): nat {
    if a + b > 0xFFFF then a + b - 0xFFFF else a + b
  }

  /** The ones'-complement sum of the words of b in network order. */
  function OnesSum(b: seq<byte>): (r: nat)
    ensures r <= 0xFFFF
  {
    if b == [] then 0
    else if |b| == 1 then Word(0, b[0])
    else OnesAdd(Word(b[1], b[0]), OnesSum(b[2..]))
  }

  /** End-around carry computes the sum modulo 65535, with 65535 itself for nonzero multiples. */
  lemma {:induction false} OnesSumIs(b: seq<byte>)
    ensures OnesSum(b) == if NetworkSum(b) == 0 then 0 else 1 + (NetworkSum(b) - 1) % 0xFFFF
    decreases |b|
  {
    if |b| >= 2 {
      OnesSumIs(b[2..]);
      CarryIs(Word(b[1], b[0]), NetworkSum(b[2..]));
    }
  }

  lemma CarryIs(w: nat, n: nat)
    requires w <= 0xFFFF
    ensures OnesAdd(w, if n == 0 then 0 else 1 + (n - 1) % 0xFFFF) == if w + n == 0 then 0 else 1 + (w + n - 1) % 0xFFFF
  {
    if n > 0 {
      var q, r := (n - 1) / 0xFFFF, (n - 1) % 0xFFFF;
      assert n - 1 == q * 0xFFFF + r;
      var carry := w + 1 + r > 0xFFFF;
      ModUnique(w + n - 1, 0xFFFF, if carry then q + 1 else q, if carry then w + r - 0xFFFF else w + r);
    } else if w > 0 {
      ModUnique(w - 1, 0xFFFF, 0, w - 1);
    }
  }

  /** Swapping the bytes of every word multiplies by 256, modulo 65535. */
  lemma {:induction false} ByteOrderFree(b: seq<byte>) returns (k: int)
    ensures NetworkSum(b) == 256 * WordSum(b) - k * 0xFFFF
    ensures NetworkSum(b) == 0 <==> WordSum(b) == 0
    decreases |b|
  {
    if b == [] {
      k := 0;
    } else if |b| == 1 {
      k := 0;
    } else {
      var j := ByteOrderFree(b[2..]);
      k := j + b[1];
    }
  }

  // ----- marshalling -----

  predicate IsV6(kind: int) {
    kind == ECHO_REQUEST_V6 || kind == ECHO_REPLY_V6
  }

  function EchoBytes(e: Echo): seq<byte> {
    [e.id / 256 % 256, e.id % 256, e.sequence / 256 % 256, e.sequence % 256] + e.data
  }

  /** The bytes before the checksum is put in. */
  function Plain(m: Message): (b: seq<byte>)
    ensures |b| >= 4 && b[2] == b[3] == 0
  {
    [m.kind % 256, m.code % 256, 0, 0] + (if m.body.Some? then EchoBytes(m.body.echo) else [])
  }

  /** The sum the loop of Marshal ends with. */
  method Accumulate(b: seq<byte>) returns (s: uint32)
    requires |b| > 0
    ensures s == WordSum(b) % TWO_32
  {
    hide Or, Shl32, Word;
    var covered := |b| - 1;
    s := 0;
    var i := 0;
    ghost var before: nat := 0;
    assert b[0..] == b;
    while i < covered
      invariant 0 <= i <= covered + 1 && i % 2 == 0
      invariant before + WordSum(b[i..]) == WordSum(b)
      invariant s == before % TWO_32
    {
      SumStep(b, i);
      AddWord(before, b[i], b[i + 1]);
      before := before + Word(b[i], b[i + 1]);
      s := (s + Or(Shl32(b[i + 1], 8), b[i])) % TWO_32;
      i := i + 2;
    }
    SumEnd(b, i);
    if covered % 2 == 0 {
      AddModulo(before, b[covered]);
      s := (s + b[covered]) % TWO_32;
    }
  }

  lemma AddWord(before: nat, low: byte, high: byte)
    ensures (before % TWO_32 + Or(Shl32(high, 8), low)) % TWO_32 == (before + Word(low, high)) % TWO_32
  {
    hide Or, Shl32, Word;
    WordOr(low, high);
    AddModulo(before, Word(low, high));
  }

  lemma SumStep(b: seq<byte>, i: nat)
    requires i + 1 < |b|
    ensures WordSum(b[i..]) == Word(b[i], b[i + 1]) + WordSum(b[i + 2..])
  {
    assert b[i..][2..] == b[i + 2..];
  }

  lemma SumEnd(b: seq<byte>, i: nat)
    requires |b| - 1 <= i <= |b|
    ensures WordSum(b[i..]) == if i < |b| then b[i] else 0
  {
  }

  lemma WordOr(low: byte, high: byte)
    ensures Or(Shl32(high, 8), low) == Word(low, high)
  {
    hide Or;
    Pow2Values();
    var h: nat := high as int * 256;
    OrDisjoint(low, high, 8);
    OrComm(low, h);
    ModUnique(h, TWO_32, 0, h);
  }

  lemma AddModulo(a: nat, w: nat)
    ensures (a % TWO_32 + w) % TWO_32 == (a + w) % TWO_32
  {
    var q, r := a / TWO_32, a % TWO_32;
    ModUnique(a + w, TWO_32, q + (r + w) / TWO_32, (r + w) % TWO_32);
  }

  /** The two foldings, seen in their low sixteen bits. */
  function Folded(s: uint32): (f: nat)
    ensures f <= 0xFFFF
  {
    var s1 := s / 0x1_0000 + s % 0x1_0000;
    (s1 + s1 / 0x1_0000) % 0x1_0000
  }

  lemma FoldedIs(s: uint32) returns (k: int)
    ensures s == Folded(s) + k * 0xFFFF
    ensures Folded(s) == 0 <==> s == 0
  {
    var hi, lo := s / 0x1_0000, s % 0x1_0000;
    var s1 := hi + lo;
    assert s == hi * 0x1_0000 + lo && hi < 0x1_0000;
    if s1 >= 0x1_0000 {
      ModUnique(s1, 0x1_0000, 1, s1 - 0x1_0000);
      ModUnique(s1 + 1, 0x1_0000, 1, s1 + 1 - 0x1_0000);
      k := hi + 1;
    } else {
      ModUnique(s1, 0x1_0000, 0, s1);
      k := hi;
    }
  }

  /** What Marshal produces. */
  function Marshalled(m: Message): seq<byte> {
    var b := Plain(m);
    if IsV6(m.kind) then b
    else
      var sum := 0xFFFF - Folded(WordSum(b) % TWO_32);
      b[2 := sum % 256][3 := sum / 256]
  }

  method Marshal(m: Message) returns (b: seq<byte>)
    ensures b == Marshalled(m)
  {
    b := Plain(m);
    if IsV6(m.kind) {
      return;
    }
    hide WordSum, Folded, Xor;
    var s: uint32 := Accumulate(b);
    FoldSteps(s);
    s := (s / 0x1_0000 + s % 0x1_0000) % TWO_32;
    s := (s + s / 0x1_0000) % TWO_32;
    var inverse: uint32 := TWO_32 - 1 - s;
    InverseLow(s, inverse);
    XorZero(inverse % 256);
    XorZero(inverse / 256 % 256);
    b := b[2 := Xor(b[2], inverse % 256)];
    b := b[3 := Xor(b[3], inverse / 256 % 256)];
  }

  /** The uint32 additions of the foldings do not wrap. */
  lemma FoldSteps(s: uint32)
    ensures var s1 := (s / 0x1_0000 + s % 0x1_0000) % TWO_32;
            ((s1 + s1 / 0x1_0000) % TWO_32) % 0x1_0000 == Folded(s)
  {
    var s1 := s / 0x1_0000 + s % 0x1_0000;
    assert s1 <= 0x1_FFFE;
    ModUnique(s1, TWO_32, 0, s1);
    var s2 := s1 + s1 / 0x1_0000;
    ModUnique(s2, TWO_32, 0, s2);
  }

  lemma InverseLow(s: uint32, inverse: uint32)
    requires inverse == TWO_32 - 1 - s
    ensures var low := 0xFFFF - s % 0x1_0000;
            inverse % 256 == low % 256 && inverse / 256 % 256 == low / 256
  {
    var hi, lo := s / 0x1_0000, s % 0x1_0000;
    var h, l := 0xFFFF - hi, 0xFFFF - lo;
    var top := h * 256 + l / 256;
    assert l == l / 256 * 256 + l % 256;
    assert inverse == top * 256 + l % 256;
    ModUnique(inverse, 256, top, l % 256);
    ModUnique(top, 256, h, l / 256);
  }

  // ----- the checksum is right -----

  /** Putting a word into the empty checksum field adds it to the sum. */
  lemma PatchSum(b: seq<byte>, sum: nat)
    requires |b| >= 4 && b[2] == b[3] == 0 && sum <= 0xFFFF
    ensures WordSum(b[2 := sum % 256][3 := sum / 256]) == WordSum(b) + sum
  {
    var b' := b[2 := sum % 256][3 := sum / 256];
    assert b'[2..][2..] == b[2..][2..];
    assert Word(sum % 256, sum / 256) == sum;
  }

  /** Exactly when the marshalled bytes pass a receiver's check, whose ones'-complement sum must be all
      ones: when the number of times the 32-bit accumulator wrapped is a multiple of 65535. */
  lemma ChecksumValidIff(m: Message)
    requires !IsV6(m.kind)
    ensures OnesSum(Marshalled(m)) == 0xFFFF <==> WordSum(Plain(m)) / TWO_32 % 0xFFFF == 0
  {
    hide WordSum, OnesSum, NetworkSum, Plain, Folded;
    var b := Plain(m);
    var total := WordSum(b);
    var s: uint32 := total % TWO_32;
    var q := total / TWO_32;
    var f := Folded(s);
    var k := FoldedIs(s);
    PatchSum(b, 0xFFFF - f);
    OnesSumIs(Marshalled(m));
    var j := ByteOrderFree(Marshalled(m));
    Residue(total, q, s, f, k, j, NetworkSum(Marshalled(m)));
  }

  lemma Residue(total: nat, q: nat, s: nat, f: nat, k: int, j: int, n: nat)
    requires total == q * TWO_32 + s && s == f + k * 0xFFFF && f <= 0xFFFF
    requires n == 256 * (total + 0xFFFF - f) - j * 0xFFFF && (n == 0 <==> total + 0xFFFF - f == 0)
    requires f == 0 <==> s == 0
    ensures (if n == 0 then 0 else 1 + (n - 1) % 0xFFFF) == 0xFFFF <==> q % 0xFFFF == 0
  {
    // 2^32 = 65537 * 65535 + 1, so n is 256 * q up to a multiple of 65535, and 256 is invertible.
    var c := 256 * (q * 65537 + k + 1) - j;
    assert n == 256 * q + c * 0xFFFF;
    MultipleIff(n, q, c);
  }

  lemma MultipleIff(n: nat, q: nat, c: int)
    requires n > 0 && n == 256 * q + c * 0xFFFF
    ensures 1 + (n - 1) % 0xFFFF == 0xFFFF <==> q % 0xFFFF == 0
  {
    var a, r := q / 0xFFFF, q % 0xFFFF;
    assert q == a * 0xFFFF + r;
    if r == 0 {
      ModUnique(n - 1, 0xFFFF, 256 * a + c - 1, 0xFFFE);
    } else {
      // 256 * r is a multiple of 65535 only if r is, as 256 * 256 = 65535 + 1
      var d := (n - 1) / 0xFFFF + 1;
      assert (n - 1) % 0xFFFF == 0xFFFE ==> 256 * r == (d - 256 * a - c) * 0xFFFF;
    }
  }

  lemma {:induction false} SumBound(b: seq<byte>)
    ensures WordSum(b) <= (|b| + 1) / 2 * 0xFFFF
    decreases |b|
  {
    hide Word;
    if |b| >= 2 {
      SumBound(b[2..]);
    }
  }

  /** Up to 131,074 bytes the accumulator cannot wrap, so the checksum is always valid, odd lengths
      included. */
  lemma ChecksumValid(m: Message)
    requires !IsV6(m.kind) && |Plain(m)| <= 131074
    ensures WordSum(Plain(m)) < TWO_32
    ensures OnesSum(Marshalled(m)) == 0xFFFF
  {
    hide WordSum, Plain, Marshalled, OnesSum;
    SumBound(Plain(m));
    ChecksumValidIff(m);
    assert (|Plain(m)| + 1) / 2 <= 65537;
    assert WordSum(Plain(m)) / TWO_32 == 0;
  }

  // ----- parsing back -----

  function ParseEcho(b: seq<byte>): Body
    requires |b| >= 4
  {
    Some(Echo(Word(b[1], b[0]), Word(b[3], b[2]), b[4..]))
  }

  /** parseICMPMessage; an echo body of one to three bytes makes it index out of range. */
  function Parse(b: seq<byte>): Parsed {
    if |b| < 4 then TooShort
    else
      var bare := Message(b[0], b[1], Word(b[3], b[2]), None);
      if |b| == 4 || !IsEcho(b[0]) then Ok(bare)
      else if |b| < 8 then Panic
      else Ok(bare.(body := ParseEcho(b[4..])))
  }

  /** Parsing a marshalled echo message gives back kind, code and data, and the identifier and sequence
      number modulo 2^16; so all of it exactly when the code fits a byte and the two fit sixteen bits. */
  lemma EchoRoundTrip(m: Message)
    requires m.body.Some? && IsEcho(m.kind)
    ensures var e := m.body.echo;
            var r := Parse(Marshalled(m));
            && r.Ok? && r.message.kind == m.kind && r.message.code == m.code % 256
            && r.message.body == Some(Echo(e.id % 0x1_0000, e.sequence % 0x1_0000, e.data))
            && (r.message == m.(checksum := r.message.checksum) <==>
                0 <= m.code < 256 && 0 <= e.id < 0x1_0000 && 0 <= e.sequence < 0x1_0000)
  {
    hide *;
    var e, b := m.body.echo, Marshalled(m);
    MarshalledShape(m);
    KindFits(m.kind);
    SplitWord(e.id);
    SplitWord(e.sequence);
    var id, sequence, code := e.id % 0x1_0000, e.sequence % 0x1_0000, m.code % 256;
    ReadsEcho(b, id, sequence, e.data);
    FitsIff(m.code, 256);
    FitsIff(e.id, 0x1_0000);
    FitsIff(e.sequence, 0x1_0000);
    SameMessage(m, code, Word(b[3], b[2]), Echo(id, sequence, e.data));
  }

  lemma SameMessage(m: Message, code: int, checksum: int, echo: Echo)
    requires m.body.Some? && echo.data == m.body.echo.data
    ensures var r := Message(m.kind, code, checksum, Some(echo));
            r == m.(checksum := checksum) <==>
            code == m.code && echo.id == m.body.echo.id && echo.sequence == m.body.echo.sequence
  {
  }

  predicate IsEcho(kind: int) {
    kind == ECHO_REQUEST || kind == ECHO_REPLY || IsV6(kind)
  }

  lemma KindFits(kind: int)
    requires IsEcho(kind)
    ensures kind % 256 == kind
  {
  }

  /** What Parse reads from the bytes of an echo message. */
  lemma ReadsEcho(b: seq<byte>, id: int, sequence: int, data: seq<byte>)
    requires |b| >= 8 && IsEcho(b[0])
    requires Word(b[5], b[4]) == id && Word(b[7], b[6]) == sequence && b[4..][4..] == data
    ensures Parse(b) == Ok(Message(b[0], b[1], Word(b[3], b[2]), Some(Echo(id, sequence, data))))
  {
    hide Word;
  }

  lemma FitsIff(v: int, m: nat)
    requires m > 0
    ensures v % m == v <==> 0 <= v < m
  {
    if 0 <= v < m {
      ModUnique(v, m, 0, v);
    }
  }

  /** The checksum field is the only thing that changes, so the body can be read back. */
  lemma MarshalledShape(m: Message)
    requires m.body.Some?
    ensures var b := Marshalled(m);
            var e := m.body.echo;
            && |b| >= 8 && b[0] == m.kind % 256 && b[1] == m.code % 256
            && b[4] == e.id / 256 % 256 && b[5] == e.id % 256
            && b[6] == e.sequence / 256 % 256 && b[7] == e.sequence % 256
            && b[8..] == e.data && b[4..][4..] == b[8..]
  {
    hide Folded, WordSum;
  }

  /** The IPv6 kinds are sent with an empty checksum field. */
  lemma NoChecksumForV6(m: Message)
    requires m.kind == 128 || m.kind == 129
    ensures |Marshalled(m)| >= 4 && Marshalled(m)[2] == Marshalled(m)[3] == 0
  {
    hide Folded, WordSum;
  }

  /** The other way round, for all bytes: which are refused, and that marshalling what was read from the
      others gives the same bytes but for the checksum, which was read as well. */
  lemma ParsedMarshals(b: seq<byte>)
    ensures Parse(b).TooShort? <==> |b| < 4
    ensures Parse(b).Panic? <==> 4 < |b| < 8 && b[0] as int in {0, 8, 128, 129}
    ensures Parse(b).Ok? ==>
              var m := Parse(b).message;
              && m.checksum == 256 * b[2] as int + b[3] as int
              && (m.body.Some? <==> |b| > 4 && b[0] as int in {0, 8, 128, 129})
              && m.kind == b[0] as int && m.code == b[1] as int
    ensures Parse(b).Ok? && Parse(b).message.body.Some? ==>
              var out := Marshalled(Parse(b).message);
              |out| == |b| >= 8 && out[..2] == b[..2] && out[4..] == b[4..]
  {
    if Parse(b).Ok? && Parse(b).message.body.Some? {
      var m := Parse(b).message;
      var e := m.body.echo;
      assert b[4..][4..] == b[8..];
      assert e == Echo(Word(b[5], b[4]), Word(b[7], b[6]), b[8..]);
      MarshalledShape(m);
      JoinWord(b[5], b[4]);
      JoinWord(b[7], b[6]);
      FitsIff(m.kind, 256);
      FitsIff(m.code, 256);
      hide Marshalled, Parse, Word;
      var out := Marshalled(m);
      SameBytes(out, b);
    }
  }

  lemma SameBytes(out: seq<byte>, b: seq<byte>)
    requires |out| >= 8 && |b| >= 8 && out[8..] == b[8..]
    requires out[0] == b[0] && out[1] == b[1] && out[4] == b[4] && out[5] == b[5] && out[6] == b[6] && out[7] == b[7]
    ensures |out| == |b| && out[..2] == b[..2] && out[4..] == b[4..]
  {
    assert |out| == 8 + |out[8..]| && |b| == 8 + |b[8..]|;
    forall i | 4 <= i < |b|
      ensures out[i] == b[i]
    {
      if i >= 8 {
        assert out[i] == out[8..][i - 8] && b[i] == b[8..][i - 8];
      }
    }
  }

  lemma JoinWord(low: byte, high: byte)
    ensures Word(low, high) % 256 == low as int && Word(low, high) / 256 % 256 == high as int
  {
    ModUnique(Word(low, high), 256, high as int, low as int);
    ModUnique(high as int, 256, 0, high as int);
  }

  lemma SplitWord(v: int)
    ensures Word(v % 256, v / 256 % 256) == v % 0x1_0000
  {
    var q := v / 0x1_0000;
    var r := v % 0x1_0000;
    ModUnique(v, 256, q * 256 + r / 256, r % 256);
    ModUnique(q * 256 + r / 256, 256, q, r / 256);
  }
}
