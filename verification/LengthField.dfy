/** The length-field codec of netty/codec/frame: a fixed-width length, possibly behind other header
    bytes, read with 64-bit arithmetic that wraps. */
module LengthField {
  import opened Bits

  const TWO_63: int := 0x8000_0000_0000_0000
  const TWO_64: int := 0x1_0000_0000_0000_0000

  type int64 = x: int | -TWO_63 <= x < TWO_63

  /** The value an int64 holds after arithmetic: the residue modulo 2^64 around zero. */
  function Wrap(x: int): (w: int64) {
    var r := x % TWO_64;
    if r < TWO_63 then r else r - TWO_64
  }

  lemma WrapValue(x: int)
    ensures -TWO_63 <= x < TWO_63 ==> Wrap(x) == x
    ensures TWO_63 <= x < TWO_63 + TWO_64 ==> Wrap(x) == x - TWO_64
  {
    if 0 <= x < TWO_64 {
      ModUnique(x, TWO_64, 0, x);
    } else if -TWO_63 <= x < 0 {
      ModUnique(x, TWO_64, -1, x + TWO_64);
    } else if TWO_64 <= x < TWO_63 + TWO_64 {
      ModUnique(x, TWO_64, 1, x - TWO_64);
    }
  }

  datatype Order = Big | Little

  datatype Config = Config(order: Order, maxFrame: int64, offset: int64, width: int64, adjustment: int64, strip: int64)

  /** The assertions LengthFieldCodec makes on its arguments. */
  predicate Accepted(c: Config) {
    && c.maxFrame > 0 && c.offset >= 0 && c.strip >= 0
    && (c.width == 1 || c.width == 2 || c.width == 4 || c.width == 8)
    && c.offset <= Wrap(c.maxFrame - c.width)
  }

  lemma AcceptedMeans(c: Config)
    requires Accepted(c)
    ensures c.offset + c.width <= c.maxFrame
  {
    WrapValue(c.maxFrame - c.width);
  }

  // ----- the length field itself -----

  function Pow256(n: nat): (p: nat)
    ensures p > 0
  {
    if n == 0 then 1 else 256 * Pow256(n - 1)
  }

  /** Most significant byte first. */
  function BigValue(b: seq<byte>): nat {
    if b == [] then 0 else 256 * BigValue(b[..|b| - 1]) + b[|b| - 1]
  }

  function BigBytes(v: nat, n: nat): (b: seq<byte>)
    ensures |b| == n
  {
    if n == 0 then [] else BigBytes(v / 256, n - 1) + [v % 256]
  }

  function Mirrored(b: seq<byte>): (r: seq<byte>)
    ensures |r| == |b|
    ensures forall i :: 0 <= i < |b| ==> r[i] == b[|b| - 1 - i]
  {
    if b == [] then [] else [b[|b| - 1]] + Mirrored(b[..|b| - 1])
  }

  /** packFieldLength: the low `width` bytes of the two's-complement length. */
  function Pack(order: Order, width: nat, length: int): (b: seq<byte>)
    ensures |b| == width
  {
    var big := BigBytes(length % Pow256(width), width);
    if order == Big then big else Mirrored(big)
  }

  /** unpackFieldLength: unsigned up to four bytes, and reinterpreted as signed for eight. */
  function Unpack(order: Order, b: seq<byte>): int64 {
    Wrap(BigValue(if order == Big then b else Mirrored(b)))
  }

  lemma {:induction false} BigRoundTrip(v: nat, n: nat)
    ensures BigValue(BigBytes(v, n)) == v % Pow256(n)
  {
    if n > 0 {
      BigRoundTrip(v / 256, n - 1);
      var b := BigBytes(v, n);
      assert b[..n - 1] == BigBytes(v / 256, n - 1);
      ModStep(v, Pow256(n - 1));
    }
  }

  lemma ModStep(v: nat, p: nat)
    requires p > 0
    ensures 256 * (v / 256 % p) + v % 256 == v % (256 * p)
  {
    var q := v / 256 / p;
    var r := 256 * (v / 256 % p) + v % 256;
    assert v == q * (256 * p) + r by {
      assert v / 256 == q * p + v / 256 % p;
      assert q * (256 * p) == 256 * (q * p);
    }
    ModUnique(v, 256 * p, q, r);
  }

  lemma {:induction false} BigByte(v: nat, n: nat, i: nat)
    requires i < n
    ensures BigBytes(v, n)[i] as int == v / Pow256(n - 1 - i) % 256
  {
    if i < n - 1 {
      BigByte(v / 256, n - 1, i);
      DivTwice(v, 256, Pow256(n - 2 - i));
    }
  }

  lemma DivTwice(v: nat, a: nat, b: nat)
    requires a > 0 && b > 0
    ensures a * b > 0 && v / a / b == v / (a * b)
  {
    var q, r := v / a, v % a;
    var k, m := q / b, q % b;
    assert v == q * a + r && q == k * b + m;
    assert v == k * (a * b) + (m * a + r) by {
      assert q * a == k * b * a + m * a;
      assert k * b * a == k * (a * b);
    }
    assert m * a + r < a * b by {
      MulMono(m + 1, b, a);
    }
    ModUnique(v, a * b, k, m * a + r);
  }

  /** The field byte by byte: most significant first in big-endian order, least significant first in
      little-endian order. */
  lemma PackByte(order: Order, width: nat, length: int, i: nat)
    requires i < width
    ensures var low := length % Pow256(width);
            var b := Pack(order, width, length)[i] as int;
            && (order == Big ==> b == low / Pow256(width - 1 - i) % 256)
            && (order == Little ==> b == low / Pow256(i) % 256)
  {
    var low := length % Pow256(width);
    BigByte(low, width, if order == Big then i else width - 1 - i);
  }

  lemma {:induction false} MirrorTwice(b: seq<byte>)
    ensures Mirrored(Mirrored(b)) == b
  {
    var m := Mirrored(b);
    assert forall i :: 0 <= i < |b| ==> Mirrored(m)[i] == m[|b| - 1 - i] == b[i];
  }

  lemma Powers()
    ensures Pow256(1) == 256 && Pow256(2) == 0x1_0000 && Pow256(4) == 0x1_0000_0000 && Pow256(8) == TWO_64
  {
    assert Pow256(4) == 0x1_0000_0000;
    assert Pow256(5) == 0x100_0000_0000;
    assert Pow256(6) == 0x1_0000_0000_0000;
    assert Pow256(7) == 0x100_0000_0000_0000;
  }

  /** A packed length reads back modulo the field's range, in either byte order. */
  lemma FieldRoundTrip(order: Order, width: nat, length: int)
    requires width == 1 || width == 2 || width == 4 || width == 8
    ensures Unpack(order, Pack(order, width, length)) == Wrap(length % Pow256(width))
  {
    var v := length % Pow256(width);
    BigRoundTrip(v, width);
    ModUnique(v, Pow256(width), 0, v);
    MirrorTwice(BigBytes(v, width));
  }

  // ----- reading one frame -----

  datatype Result = Panic | Frame(bytes: seq<byte>, rest: seq<byte>)

  /** The frame length the code arrives at, header included. */
  function FrameLength(c: Config, field: int64): int64 {
    Wrap(field + Wrap(c.adjustment + Wrap(c.offset + c.width)))
  }

  /** What one HandleRead takes from the bytes a reader still has, and what it hands on. */
  function Decode(c: Config, input: seq<byte>): Result
    requires Accepted(c)
  {
    var end := c.offset + c.width;
    AcceptedMeans(c);
    if |input| < end then Panic
    else
      var field := Unpack(c.order, input[c.offset..end]);
      var length := FrameLength(c, field);
      if field < 0 || length < end || length > c.maxFrame || c.strip > length then Panic
      else
        var taken := if length <= |input| then length else |input|;
        if c.strip > taken then Panic else Frame(input[c.strip..taken], input[taken..])
  }

  class Reader {
    var pending: seq<byte>

    constructor (bytes: seq<byte>)
      ensures pending == bytes
    {
      pending := bytes;
    }

    /** Up to n bytes, fewer only at the end of the stream. */
    method Take(n: nat) returns (b: seq<byte>)
      modifies this
      ensures var k := if n <= |old(pending)| then n else |old(pending)|;
              b == old(pending)[..k] && pending == old(pending)[k..]
    {
      var k := if n <= |pending| then n else |pending|;
      b := pending[..k];
      pending := pending[k..];
    }
  }

  lemma Rejoin(b: seq<byte>, i: nat, j: nat)
    requires i <= j <= |b|
    ensures b[..i] + b[i..][..j - i] == b[..j] && b[i..][j - i..] == b[j..]
  {
  }

  /** HandleRead, with a next handler that drains the frame it is given. */
  method HandleRead(c: Config, reader: Reader) returns (r: Result)
    requires Accepted(c)
    modifies reader
    ensures r.Panic? <==> Decode(c, old(reader.pending)).Panic?
    ensures r.Frame? ==> r == Decode(c, old(reader.pending)) && r.rest == reader.pending
  {
    ghost var input := reader.pending;
    AcceptedMeans(c);
    hide Wrap, Unpack, Accepted;
    WrapValue(c.offset + c.width);
    var end := c.offset + c.width;
    var header := reader.Take(end);
    if |header| != end {
      return Panic;
    }
    assert header[c.offset..end] == input[c.offset..end];
    var length := Unpack(c.order, header[c.offset..end]);
    if length < 0 {
      return Panic;
    }
    length := Wrap(length + Wrap(c.adjustment + Wrap(end)));
    if length < end || length > c.maxFrame || c.strip > length {
      return Panic;
    }
    var body := reader.Take(length - end);
    var frame := header + body;
    ghost var taken := if length <= |input| then length else |input|;
    Rejoin(input, end, taken);
    assert frame == input[..taken] && reader.pending == input[taken..];
    if c.strip > |frame| {
      return Panic;
    }
    assert frame[c.strip..] == input[c.strip..taken];
    return Frame(frame[c.strip..], reader.pending);
  }

  // ----- wrap-around never reaches an accepted frame -----

  /** Every length the checks let through is the mathematical one: no wrapped sum survives them. */
  lemma AcceptedLengthIsExact(c: Config, field: int64)
    requires Accepted(c) && field >= 0
    ensures var end := c.offset + c.width;
            var length := FrameLength(c, field);
            var exact := field + c.adjustment + end;
            (end <= length <= c.maxFrame <==> end <= exact <= c.maxFrame) &&
            (end <= length <= c.maxFrame ==> length == exact)
  {
    AcceptedMeans(c);
    assert c.width >= 1;
    hide Wrap, Accepted;
    var end := c.offset + c.width;
    WrapValue(end);
    WrapSum(field, c.adjustment + end);
    var exact := field + c.adjustment + end;
    WrapValue(exact);
    assert FrameLength(c, field) == Wrap(exact);
  }

  lemma WrapSum(a: int, b: int)
    ensures Wrap(a + Wrap(b)) == Wrap(a + b)
  {
    var q := b / TWO_64;
    assert b == q * TWO_64 + b % TWO_64;
    var w := Wrap(b);
    var k := if b % TWO_64 < TWO_63 then q else q + 1;
    assert b == k * TWO_64 + w;
    var s := a + w;
    ModUnique(s + k * TWO_64, TWO_64, s / TWO_64 + k, s % TWO_64);
  }

  // ----- the encoder and the round trip -----

  /** lengthFieldPrepender: its own adjustment, and whether the length counts the field itself. */
  datatype Prepender = Prepender(order: Order, width: int64, adjustment: int64, includesField: bool)

  function Announced(p: Prepender, body: seq<byte>): int64
    requires |body| < TWO_63
  {
    var length := Wrap(|body| + p.adjustment);
    if p.includesField then Wrap(length + p.width) else length
  }

  function Prepend(p: Prepender, body: seq<byte>): seq<byte>
    requires p.width >= 0 && |body| < TWO_63
  {
    Pack(p.order, p.width, Announced(p, body)) + body
  }

  /** A decoder set up for what the prepender writes: same field, no offset, and an adjustment that
      takes back what the prepender added. */
  predicate Matched(c: Config, p: Prepender) {
    && Accepted(c) && c.order == p.order && c.width == p.width && c.offset == 0 && c.strip == c.width
    && c.adjustment == -(p.adjustment + if p.includesField then p.width else 0)
  }

  /** The announced length fits its field, and the frame the decoder's limit. */
  predicate Fits(c: Config, p: Prepender, body: seq<byte>) {
    var announced := |body| - c.adjustment;
    c.width >= 0 && 0 <= announced < Pow256(c.width) && announced < TWO_63 && c.width + |body| <= c.maxFrame
  }

  /** What is left of a length in the field. */
  function Residue(width: nat, announced: int): nat {
    announced % Pow256(width)
  }

  /** At the end of the stream one more case passes: a negative announced length, which the field turns
      into a larger one, as long as that stays within the limit. */
  predicate FitsAtEnd(c: Config, body: seq<byte>) {
    var announced := |body| - c.adjustment;
    announced < 0 && 0 <= c.width < 8 && c.width + Residue(c.width, announced) + c.adjustment <= c.maxFrame
  }

  /** The field holds the announced length exactly when it fits. */
  lemma FieldValue(c: Config, announced: int)
    requires Accepted(c) && -TWO_63 <= announced < TWO_64
    ensures var field := Wrap(Wrap(announced) % Pow256(c.width));
            (field >= 0 && field == announced) <==> 0 <= announced < Pow256(c.width) && announced < TWO_63
  {
    Powers();
    WrapValue(announced);
    var w := Wrap(announced);
    var f := w % Pow256(c.width);
    WrapValue(f);
    if 0 <= announced < Pow256(c.width) && announced < TWO_63 {
      ModUnique(w, Pow256(c.width), 0, w);
    }
  }

  lemma AnnouncedExact(c: Config, p: Prepender, body: seq<byte>)
    requires Matched(c, p) && |body| < TWO_63
    ensures Announced(p, body) == Wrap(|body| - c.adjustment)
  {
    WrapSum(p.width, |body| + p.adjustment);
  }

  lemma SliceBehind(head: seq<byte>, tail: seq<byte>, n: nat)
    requires n <= |tail|
    ensures var input := head + tail;
            input[|head|..|head| + n] == tail[..n] && input[|head| + n..] == tail[n..]
    ensures tail[..|tail|] == tail && tail[|tail|..] == []
  {
  }

  /** Decoding behind a header of just the length field, stripped: the body is as long as the field
      says after adjustment, or as the stream has left. */
  lemma DecodeBehindField(c: Config, head: seq<byte>, tail: seq<byte>)
    requires Accepted(c) && c.offset == 0 && c.strip == c.width == |head|
    ensures var field := Unpack(c.order, head);
            var n := field + c.adjustment;
            Decode(c, head + tail) ==
            if field < 0 || n < 0 || c.width + n > c.maxFrame then Panic
            else if n <= |tail| then Frame(tail[..n], tail[n..]) else Frame(tail, [])
  {
    hide Wrap, Unpack, FrameLength;
    AcceptedMeans(c);
    var input := head + tail;
    assert input[0..c.width] == head;
    var field := Unpack(c.order, head);
    if field >= 0 {
      AcceptedLengthIsExact(c, field);
    }
    var n := field + c.adjustment;
    if field >= 0 && 0 <= n && c.width + n <= c.maxFrame {
      if n <= |tail| {
        SliceBehind(head, tail, n);
      } else {
        SliceBehind(head, tail, |tail|);
      }
    }
  }

  /** Any offset and any strip: a frame of other header bytes, a field that announces its body, and the body
      decodes to that frame without its first `strip` bytes, leaving what follows, if it is within the limit
      and no more is stripped than there is; otherwise the decoder panics. */
  lemma DecodeAnywhere(c: Config, before: seq<byte>, body: seq<byte>, rest: seq<byte>)
    requires Accepted(c) && |before| == c.offset
    requires var announced := |body| - c.adjustment;
             0 <= announced < Pow256(c.width) && announced < TWO_63
    ensures var frame := before + Pack(c.order, c.width, |body| - c.adjustment) + body;
            && |frame| == c.offset + c.width + |body|
            && Decode(c, frame + rest) ==
               if |frame| > c.maxFrame || c.strip > |frame| then Panic else Frame(frame[c.strip..], rest)
  {
    AcceptedMeans(c);
    var announced := |body| - c.adjustment;
    var head := Pack(c.order, c.width, announced);
    AnnouncedReads(c, announced);
    AcceptedLengthIsExact(c, announced);
    hide Pack, Unpack, Wrap, FrameLength, Accepted, Pow256;
    var frame := before + head + body;
    FrameParts(before, head, body, rest, c.strip);
    DecodeFrame(c, frame + rest, announced, |frame|);
  }

  lemma FrameParts(before: seq<byte>, head: seq<byte>, body: seq<byte>, rest: seq<byte>, strip: nat)
    ensures var frame := before + head + body;
            var input := frame + rest;
            && |frame| == |before| + |head| + |body| && |input| == |frame| + |rest|
            && input[|before|..|before| + |head|] == head && input[|frame|..] == rest
            && (strip <= |frame| ==> input[strip..|frame|] == frame[strip..])
  {
    var frame := before + head + body;
    var input := frame + rest;
    assert input[|before|..|before| + |head|] == head;
    assert input[..|frame|] == frame;
  }

  /** Decoding, when the field reads as `field` and the length comes out as `length` bytes that are there. */
  lemma DecodeFrame(c: Config, input: seq<byte>, field: int64, length: nat)
    requires Accepted(c) && 0 <= field && c.offset + c.width <= length <= |input|
    requires Unpack(c.order, input[c.offset..c.offset + c.width]) == field
    requires length <= c.maxFrame ==> FrameLength(c, field) == length
    requires length > c.maxFrame ==> !(c.offset + c.width <= FrameLength(c, field) <= c.maxFrame)
    ensures Decode(c, input) ==
            if length > c.maxFrame || c.strip > length then Panic else Frame(input[c.strip..length], input[length..])
  {
    AcceptedMeans(c);
    hide Unpack, FrameLength;
  }

  lemma AnnouncedReads(c: Config, announced: int)
    requires Accepted(c) && 0 <= announced < Pow256(c.width) && announced < TWO_63
    ensures Unpack(c.order, Pack(c.order, c.width, announced)) == announced
  {
    hide Unpack, Pack;
    FieldRoundTrip(c.order, c.width, announced);
    FieldValue(c, announced);
    WrapValue(announced);
  }

  /** What the decoder makes of one prepended body, exactly: the body itself, with what follows left on
      the stream, if and only if it fits, or is the last thing on the stream and fits there. */
  lemma DecodeOne(c: Config, p: Prepender, body: seq<byte>, rest: seq<byte>)
    requires Matched(c, p) && |body| < TWO_63
    ensures var r := Decode(c, Prepend(p, body) + rest);
            && (r == Frame(body, rest) <==> Fits(c, p, body) || (rest == [] && FitsAtEnd(c, body)))
            && (r.Frame? && r.bytes == body ==> r.rest == rest)
  {
    assert p.width >= 0;
    hide *;
    var head := Pack(p.order, p.width, Announced(p, body));
    assert Prepend(p, body) + rest == head + (body + rest) by {
      PrependIs(p, body, rest);
    }
    FieldDecides(c, head, body, rest);
    FieldFits(c, p, body, rest);
  }

  lemma PrependIs(p: Prepender, body: seq<byte>, rest: seq<byte>)
    requires p.width >= 0 && |body| < TWO_63
    ensures Prepend(p, body) + rest == Pack(p.order, p.width, Announced(p, body)) + (body + rest)
  {
  }

  /** Whether the length in the field makes the decoder cut exactly behind the body, or reach beyond it
      at the end of the stream. */
  predicate Cuts(c: Config, field: int, body: seq<byte>, rest: seq<byte>) {
    var n := field + c.adjustment;
    field >= 0 && c.width + n <= c.maxFrame && (n == |body| || (rest == [] && n > |body|))
  }

  lemma FieldDecides(c: Config, head: seq<byte>, body: seq<byte>, rest: seq<byte>)
    requires Accepted(c) && c.offset == 0 && c.strip == c.width == |head|
    ensures var r := Decode(c, head + (body + rest));
            && (r == Frame(body, rest) <==> Cuts(c, Unpack(c.order, head), body, rest))
            && (r.Frame? && r.bytes == body ==> r.rest == rest)
  {
    hide Wrap, Unpack, Decode, Accepted;
    var tail := body + rest;
    DecodeBehindField(c, head, tail);
    assert tail[..|body|] == body && tail[|body|..] == rest;
    assert rest == [] ==> tail == body;
  }

  lemma FieldFits(c: Config, p: Prepender, body: seq<byte>, rest: seq<byte>)
    requires Matched(c, p) && |body| < TWO_63
    ensures Cuts(c, Unpack(c.order, Pack(p.order, p.width, Announced(p, body))), body, rest) <==>
            Fits(c, p, body) || (rest == [] && FitsAtEnd(c, body))
  {
    AnnouncedField(c, p, body);
    assert c.width >= 0;
    var announced := |body| - c.adjustment;
    var field := Unpack(c.order, Pack(p.order, p.width, Announced(p, body)));
    var exact := 0 <= announced < Pow256(c.width) && announced < TWO_63;
    hide Unpack, Pack, Pow256, Residue, Announced, Accepted, Cuts;
    CutsIff(c, field, Residue(c.width, announced), exact, body, rest);
  }

  lemma CutsIff(c: Config, field: int, residue: nat, exact: bool, body: seq<byte>, rest: seq<byte>)
    requires var announced := |body| - c.adjustment;
             && (field >= 0 && field == announced <==> exact)
             && (announced >= 0 ==> field <= announced)
             && (announced < 0 ==> if c.width < 8 then field == residue else field < 0)
    ensures Cuts(c, field, body, rest) <==>
            || (exact && c.width + |body| <= c.maxFrame)
            || (rest == [] && |body| < c.adjustment && c.width < 8 && c.width + residue + c.adjustment <= c.maxFrame)
  {
  }

  lemma AnnouncedField(c: Config, p: Prepender, body: seq<byte>)
    requires Matched(c, p) && |body| < TWO_63
    ensures var announced := |body| - c.adjustment;
            var field := Unpack(c.order, Pack(p.order, p.width, Announced(p, body)));
            && (field >= 0 && field == announced <==> 0 <= announced < Pow256(c.width) && announced < TWO_63)
            && (announced >= 0 ==> field <= announced)
            && (announced < 0 ==> if c.width < 8 then field == Residue(c.width, announced) else field < 0)
  {
    hide Unpack, Pack, Pow256, Wrap, Announced;
    var announced := |body| - c.adjustment;
    FieldRoundTrip(p.order, p.width, Announced(p, body));
    AnnouncedExact(c, p, body);
    FieldValue(c, announced);
    if announced >= 0 {
      FieldNoLarger(c, announced);
    } else {
      FieldOfNegative(c, announced);
    }
  }

  lemma FieldOfNegative(c: Config, announced: int)
    requires Accepted(c) && -TWO_63 <= announced < 0
    ensures var field := Wrap(Wrap(announced) % Pow256(c.width));
            if c.width < 8 then field == announced % Pow256(c.width) else field < 0
  {
    Powers();
    WrapValue(announced);
    if c.width < 8 {
      WrapValue(announced % Pow256(c.width));
    } else {
      ModUnique(announced, TWO_64, -1, announced + TWO_64);
      WrapValue(announced + TWO_64);
    }
  }

  /** A length that is not negative is never announced larger than it is. */
  lemma FieldNoLarger(c: Config, announced: int)
    requires Accepted(c) && 0 <= announced < TWO_64
    ensures Wrap(Wrap(announced) % Pow256(c.width)) <= announced
  {
    Powers();
    WrapValue(announced);
    var w := Wrap(announced);
    var m := Pow256(c.width);
    WrapValue(w % m);
    if announced < TWO_63 {
      assert w % m <= w;
    } else if c.width == 8 {
      ModUnique(w, TWO_64, -1, w + TWO_64);
    }
  }

  function Stream(p: Prepender, bodies: seq<seq<byte>>): seq<byte>
    requires p.width >= 0 && forall i :: 0 <= i < |bodies| ==> |bodies[i]| < TWO_63
  {
    if bodies == [] then [] else Prepend(p, bodies[0]) + Stream(p, bodies[1..])
  }

  /** n reads in a row; a panic ends them. */
  function DecodeMany(c: Config, input: seq<byte>, n: nat): (seq<seq<byte>>, seq<byte>)
    requires Accepted(c)
    decreases n
  {
    if n == 0 then ([], input)
    else
      var r := Decode(c, input);
      if r.Panic? then ([], input)
      else var (frames, rest) := DecodeMany(c, r.rest, n - 1); ([r.bytes] + frames, rest)
  }

  lemma MatchedMeans(c: Config, p: Prepender)
    requires Matched(c, p)
    ensures p.width >= 0 && Accepted(c)
  {
  }

  lemma StreamStep(c: Config, p: Prepender, bodies: seq<seq<byte>>)
    requires Matched(c, p) && forall i :: 0 <= i < |bodies| ==> |bodies[i]| < TWO_63
    ensures bodies != [] ==> Stream(p, bodies) == Prepend(p, bodies[0]) + Stream(p, bodies[1..])
    ensures bodies == [] ==> DecodeMany(c, Stream(p, bodies), |bodies|) == (bodies, [])
  {
    hide Wrap, Decode;
  }

  lemma DecodeManyStep(c: Config, input: seq<byte>, body: seq<byte>, rest: seq<byte>, n: nat)
    requires Accepted(c) && n > 0 && Decode(c, input) == Frame(body, rest)
    ensures DecodeMany(c, input, n) == ([body] + DecodeMany(c, rest, n - 1).0, DecodeMany(c, rest, n - 1).1)
  {
  }

  /** Every body fits, the last one possibly only as the last. */
  ghost predicate AllFit(c: Config, p: Prepender, bodies: seq<seq<byte>>) {
    forall i :: 0 <= i < |bodies| ==> Fits(c, p, bodies[i]) || (i == |bodies| - 1 && FitsAtEnd(c, bodies[i]))
  }

  lemma AllFitStep(c: Config, p: Prepender, bodies: seq<seq<byte>>)
    requires bodies != []
    ensures AllFit(c, p, bodies) <==>
            (Fits(c, p, bodies[0]) || (bodies[1..] == [] && FitsAtEnd(c, bodies[0]))) && AllFit(c, p, bodies[1..])
  {
    hide Fits, FitsAtEnd;
    var rest := bodies[1..];
    if AllFit(c, p, rest) {
      forall i | 0 < i < |bodies|
        ensures Fits(c, p, bodies[i]) || (i == |bodies| - 1 && FitsAtEnd(c, bodies[i]))
      {
        assert bodies[i] == rest[i - 1];
      }
    }
    if AllFit(c, p, bodies) {
      forall i | 0 <= i < |rest|
        ensures Fits(c, p, rest[i]) || (i == |rest| - 1 && FitsAtEnd(c, rest[i]))
      {
        assert bodies[i + 1] == rest[i];
      }
    }
  }

  lemma StreamEmpty(c: Config, p: Prepender, bodies: seq<seq<byte>>)
    requires Matched(c, p) && forall i :: 0 <= i < |bodies| ==> |bodies[i]| < TWO_63
    ensures Stream(p, bodies) == [] <==> bodies == []
  {
    hide Wrap, Decode;
    if bodies != [] {
      assert |Prepend(p, bodies[0])| >= p.width >= 1;
    }
  }

  lemma {:induction false} FittingBodiesReturn(c: Config, p: Prepender, bodies: seq<seq<byte>>)
    requires Matched(c, p) && (forall i :: 0 <= i < |bodies| ==> |bodies[i]| < TWO_63) && AllFit(c, p, bodies)
    ensures DecodeMany(c, Stream(p, bodies), |bodies|) == (bodies, [])
    decreases |bodies|
  {
    hide *;
    MatchedMeans(c, p);
    StreamStep(c, p, bodies);
    if bodies != [] {
      var body, rest := bodies[0], Stream(p, bodies[1..]);
      AllFitStep(c, p, bodies);
      StreamEmpty(c, p, bodies[1..]);
      DecodeOne(c, p, body, rest);
      DecodeManyStep(c, Stream(p, bodies), body, rest, |bodies|);
      FittingBodiesReturn(c, p, bodies[1..]);
      assert [body] + bodies[1..] == bodies;
    }
  }

  lemma DecodeManyFirst(c: Config, input: seq<byte>, frames: seq<seq<byte>>)
    requires Accepted(c) && frames != [] && DecodeMany(c, input, |frames|) == (frames, [])
    ensures var r := Decode(c, input);
            r.Frame? && r.bytes == frames[0] && DecodeMany(c, r.rest, |frames| - 1) == (frames[1..], [])
  {
    hide Accepted, Decode;
    var r := Decode(c, input);
    if r.Frame? {
      var more := DecodeMany(c, r.rest, |frames| - 1).0;
      assert ([r.bytes] + more)[0] == r.bytes && ([r.bytes] + more)[1..] == more;
    }
  }

  lemma {:induction false} ReturnedBodiesFit(c: Config, p: Prepender, bodies: seq<seq<byte>>)
    requires Matched(c, p) && forall i :: 0 <= i < |bodies| ==> |bodies[i]| < TWO_63
    requires DecodeMany(c, Stream(p, bodies), |bodies|) == (bodies, [])
    ensures AllFit(c, p, bodies)
    decreases |bodies|
  {
    if bodies != [] {
      hide *;
      MatchedMeans(c, p);
      StreamStep(c, p, bodies);
      var body, rest := bodies[0], Stream(p, bodies[1..]);
      DecodeManyFirst(c, Stream(p, bodies), bodies);
      DecodeOne(c, p, body, rest);
      StreamEmpty(c, p, bodies[1..]);
      ReturnedBodiesFit(c, p, bodies[1..]);
      AllFitStep(c, p, bodies);
    }
  }

  /** The round trip over a whole stream, exactly: as many reads as there are bodies give back those
      bodies, in order and with nothing left over, if and only if every body fits. Any width, either
      byte order, and any pair of adjustments that cancel. */
  lemma StreamRoundTrip(c: Config, p: Prepender, bodies: seq<seq<byte>>)
    requires Matched(c, p) && forall i :: 0 <= i < |bodies| ==> |bodies[i]| < TWO_63
    ensures DecodeMany(c, Stream(p, bodies), |bodies|) == (bodies, []) <==> AllFit(c, p, bodies)
    ensures c.adjustment <= 0 ==> (AllFit(c, p, bodies) <==> forall i :: 0 <= i < |bodies| ==> Fits(c, p, bodies[i]))
  {
    if DecodeMany(c, Stream(p, bodies), |bodies|) == (bodies, []) {
      ReturnedBodiesFit(c, p, bodies);
    }
    if AllFit(c, p, bodies) {
      FittingBodiesReturn(c, p, bodies);
    }
  }
}
