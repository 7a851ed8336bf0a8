/** Reassembly of length-prefixed frames from a TCP byte stream, as both protobuf codecs of the
    repository do it. This module gives the meaning of one read on (buffer, frameLength) and proves
    what the decoder does over whole runs of reads; FrameDecoder.dfy has the imperative loop. */
module FrameReassembly {
  import opened Bits
  import opened Varint

  const MAX_FRAME: nat := 2 * 1024 * 1024

  /** The two codecs differ only in the two leading bytes that select the message type. `faults`
      says on which frames unmarshalling or a later handler panics. */
  datatype Dialect = Dialect(mark0: byte, mark1: byte, faults: seq<byte> -> bool)

  /** The codec fields that survive between reads. */
  datatype Held = Held(buffer: seq<byte>, frameLength: nat)

  /** The effect of one read: the fields afterwards, the frames handed on, and whether a panic was
      recovered on the way. */
  datatype Outcome = Outcome(held: Held, frames: seq<seq<byte>>, reset: bool)

  const Fresh := Held([], 0)
  const Recovered := Outcome(Fresh, [], true)

  /** Looking at data[0] and data[1] panics on an empty frame, and on a one-byte frame exactly when
      its byte equals the first mark. */
  predicate Deliverable(d: Dialect, frame: seq<byte>) {
    && 0 < |frame| <= MAX_FRAME
    && (|frame| == 1 ==> frame[0] != d.mark0)
    && !d.faults(frame)
  }

  lemma DeliverableIs(d: Dialect, frame: seq<byte>)
    requires |frame| <= 0x20_0000
    ensures Deliverable(d, frame) <==> frame != [] && frame != [d.mark0] && !d.faults(frame)
  {
  }

  // ----- what one call of readAndDeal means -----

  predicate HeaderWaits(b: seq<byte>) {
    var (v, n) := Decoded(b);
    (n == 0 && |b| < 5) || v > MAX_FRAME
  }

  function Deal(d: Dialect, b: seq<byte>): Outcome
    decreases |b|, 1
  {
    var (v, n) := Decoded(b);
    if HeaderWaits(b) then Outcome(Held(b, 0), [], false)
    else if n < 0 then Recovered
    else DealBody(d, b[n..], v)
  }

  /** The body of a frame whose length is known: wait for it, or take it and go on. */
  function DealBody(d: Dialect, b: seq<byte>, length: nat): Outcome
    requires length <= MAX_FRAME
    decreases |b|, 0
  {
    if |b| < length then Outcome(Held(b, length), [], false)
    else if !Deliverable(d, b[..length]) then Recovered
    else if |b| == length then Outcome(Fresh, [b], false)
    else Prepend([b[..length]], Deal(d, b[length..]))
  }

  function Prepend(frames: seq<seq<byte>>, o: Outcome): Outcome {
    o.(frames := frames + o.frames)
  }

  /** One turn of the loop: a surviving frame moves from the buffer to the frames handed on. */
  lemma DealTurn(d: Dialect, taken: seq<seq<byte>>, b: seq<byte>, length: nat)
    requires length <= MAX_FRAME && length < |b|
    ensures Prepend(taken, DealBody(d, b, length)) ==
            if Deliverable(d, b[..length]) then Prepend(taken + [b[..length]], Deal(d, b[length..]))
            else Outcome(Fresh, taken, true)
  {
    hide Decoded, Deliverable;
    var f := b[..length];
    if Deliverable(d, f) {
      var o := Deal(d, b[length..]);
      assert taken + [f] + o.frames == taken + ([f] + o.frames);
    } else {
      assert taken + [] == taken;
    }
  }

  lemma DealLast(d: Dialect, taken: seq<seq<byte>>, b: seq<byte>)
    requires |b| <= MAX_FRAME
    ensures Prepend(taken, DealBody(d, b, |b|)) ==
            if Deliverable(d, b) then Outcome(Fresh, taken + [b], false) else Outcome(Fresh, taken, true)
  {
    assert b[..|b|] == b && taken + [] == taken;
  }

  lemma DealWaits(d: Dialect, taken: seq<seq<byte>>, b: seq<byte>, length: nat)
    requires |b| < length <= MAX_FRAME
    ensures Prepend(taken, DealBody(d, b, length)) == Outcome(Held(b, length), taken, false)
  {
    assert taken + [] == taken;
  }

  /** One read: append what arrived, then deal. */
  function Feed(d: Dialect, h: Held, chunk: seq<byte>): Outcome
    requires h.frameLength <= MAX_FRAME
  {
    var b := h.buffer + chunk;
    if h.frameLength == 0 then Deal(d, b) else DealBody(d, b, h.frameLength)
  }

  // ----- every state a read can leave behind -----

  /** Either a frame is awaited and incomplete, or no length is known and the buffer is empty, is an
      unterminated header under five bytes, or starts with a header above the limit. */
  predicate Resting(h: Held) {
    if h.frameLength > 0 then h.frameLength <= MAX_FRAME && |h.buffer| < h.frameLength
    else h.buffer == [] || Decoded(h.buffer).0 > MAX_FRAME ||
         (|h.buffer| < 5 && Terminator(h.buffer) == |h.buffer|)
  }

  lemma {:induction false} DealRests(d: Dialect, b: seq<byte>)
    ensures Resting(Deal(d, b).held)
    ensures forall f :: f in Deal(d, b).frames ==> Deliverable(d, f)
    decreases |b|, 1
  {
    var (v, n) := Decoded(b);
    if !HeaderWaits(b) && n >= 0 {
      DealBodyRests(d, b[n..], v);
    }
  }

  lemma {:induction false} DealBodyRests(d: Dialect, b: seq<byte>, length: nat)
    requires length <= MAX_FRAME
    ensures Resting(DealBody(d, b, length).held)
    ensures forall f :: f in DealBody(d, b, length).frames ==> Deliverable(d, f)
    decreases |b|, 0
  {
    if |b| > length && Deliverable(d, b[..length]) {
      DealRests(d, b[length..]);
    } else if |b| == length {
      assert b[..length] == b;
    }
  }

  // ----- runs of reads -----

  /** Feeding a sequence of reads to a decoder; `reset` tells whether any of them panicked. */
  function Run(d: Dialect, h: Held, chunks: seq<seq<byte>>): Outcome
    requires Resting(h)
    decreases |chunks|
  {
    if chunks == [] then Outcome(h, [], false)
    else
      var o := Feed(d, h, chunks[0]);
      FeedRests(d, h, chunks[0]);
      var rest := Run(d, o.held, chunks[1..]);
      Outcome(rest.held, o.frames + rest.frames, o.reset || rest.reset)
  }

  lemma FeedRests(d: Dialect, h: Held, chunk: seq<byte>)
    requires h.frameLength <= MAX_FRAME
    ensures Resting(Feed(d, h, chunk).held)
    ensures forall f :: f in Feed(d, h, chunk).frames ==> Deliverable(d, f)
  {
    var b := h.buffer + chunk;
    if h.frameLength == 0 {
      DealRests(d, b);
    } else {
      DealBodyRests(d, b, h.frameLength);
    }
  }

  /** Robustness: after any reads of any bytes the decoder is in one of the resting states, and it
      has only ever handed on frames that the type test and the handlers survive. */
  lemma {:induction false} AnyBytesRest(d: Dialect, h: Held, chunks: seq<seq<byte>>)
    requires Resting(h)
    ensures Resting(Run(d, h, chunks).held)
    ensures forall f :: f in Run(d, h, chunks).frames ==> Deliverable(d, f)
    decreases |chunks|
  {
    if chunks != [] {
      FeedRests(d, h, chunks[0]);
      AnyBytesRest(d, Feed(d, h, chunks[0]).held, chunks[1..]);
    }
  }

  /** A header above the limit is never consumed: from then on the decoder hands on nothing and
      keeps every byte it is given. */
  lemma {:induction false} OversizeHeaderWedges(d: Dialect, h: Held, chunks: seq<seq<byte>>)
    requires h.frameLength == 0 && Decoded(h.buffer).0 > MAX_FRAME
    ensures Run(d, h, chunks) == Outcome(Held(h.buffer + Concat(chunks), 0), [], false)
    decreases |chunks|
  {
    hide Decoded;
    if chunks == [] {
      assert h.buffer + [] == h.buffer;
    } else {
      DecodedStable(h.buffer, chunks[0]);
      var h' := Held(h.buffer + chunks[0], 0);
      OversizeHeaderWedges(d, h', chunks[1..]);
      assert h.buffer + chunks[0] + Concat(chunks[1..]) == h.buffer + (chunks[0] + Concat(chunks[1..]));
    }
  }

  // ----- when the cut points between reads matter -----

  /** Dealing two reads at once is dealing the first and then the second, unless the first panics. */
  lemma {:induction false} DealMerges(d: Dialect, b: seq<byte>, more: seq<byte>)
    requires !Deal(d, b).reset
    ensures Deal(d, b).held.frameLength <= MAX_FRAME
    ensures Deal(d, b + more) == Prepend(Deal(d, b).frames, Feed(d, Deal(d, b).held, more))
    decreases |b|, 1
  {
    hide Decoded;
    DealRests(d, b);
    var (v, n) := Decoded(b);
    if n > 0 && v <= MAX_FRAME {
      DecodedStable(b, more);
      assert (b + more)[n..] == b[n..] + more;
      DealBodyMerges(d, b[n..], v, more);
    }
  }

  lemma {:induction false} DealBodyMerges(d: Dialect, b: seq<byte>, length: nat, more: seq<byte>)
    requires length <= MAX_FRAME && !DealBody(d, b, length).reset
    ensures var o := DealBody(d, b, length);
            o.held.frameLength <= MAX_FRAME
    ensures var o := DealBody(d, b, length);
            DealBody(d, b + more, length) == Prepend(o.frames, Feed(d, o.held, more))
    decreases |b|, 0
  {
    hide Decoded;
    DealBodyRests(d, b, length);
    if |b| >= length {
      assert (b + more)[..length] == b[..length];
      var rest := b[length..];
      assert (b + more)[length..] == rest + more;
      if rest == [] {
        assert b[..length] == b && rest + more == more && [] + more == more;
        RestingIsIdle(d, Fresh);
        assert more == [] ==> b + more == b;
      } else {
        DealMerges(d, rest, more);
      }
    }
  }

  /** For arbitrary bytes, the way they are cut into reads does not matter as long as no read
      panics: the run equals a single read of everything. */
  lemma {:induction false} CutsDoNotMatter(d: Dialect, h: Held, chunks: seq<seq<byte>>)
    requires Resting(h) && !Run(d, h, chunks).reset
    ensures Run(d, h, chunks) == Feed(d, h, Concat(chunks))
    decreases |chunks|
  {
    if chunks == [] {
      RestingIsIdle(d, h);
    } else {
      var o := Feed(d, h, chunks[0]);
      FeedRests(d, h, chunks[0]);
      CutsDoNotMatter(d, o.held, chunks[1..]);
      FeedMerges(d, h, chunks[0], Concat(chunks[1..]));
    }
  }

  lemma FeedMerges(d: Dialect, h: Held, c: seq<byte>, more: seq<byte>)
    requires h.frameLength <= MAX_FRAME && !Feed(d, h, c).reset
    ensures Feed(d, h, c).held.frameLength <= MAX_FRAME
    ensures Feed(d, h, c + more) == Prepend(Feed(d, h, c).frames, Feed(d, Feed(d, h, c).held, more))
  {
    assert h.buffer + (c + more) == (h.buffer + c) + more;
    FeedRests(d, h, c);
    if h.frameLength == 0 {
      DealMerges(d, h.buffer + c, more);
    } else {
      DealBodyMerges(d, h.buffer + c, h.frameLength, more);
    }
  }

  lemma RestingIsIdle(d: Dialect, h: Held)
    requires Resting(h)
    ensures Feed(d, h, []) == Outcome(h, [], false)
  {
    assert h.buffer + [] == h.buffer;
  }

  /** No header that dealing with b meets takes more than five bytes. */
  predicate ShortHeads(b: seq<byte>)
    decreases |b|, 1
  {
    var (v, n) := Decoded(b);
    n <= 5 && (0 < n && v <= MAX_FRAME ==> ShortBehind(b[n..], v))
  }

  predicate ShortBehind(b: seq<byte>, length: nat)
    decreases |b|, 0
  {
    |b| <= length || length == 0 || ShortHeads(b[length..])
  }

  /** What a prefix of b shows of the first header of b. */
  lemma PrefixHeader(b: seq<byte>, k: nat)
    requires k <= |b| && Decoded(b).1 >= 0
    ensures var n := Decoded(b).1;
            Decoded(b[..k]) == if 0 < n <= k then Decoded(b) else (0, 0)
  {
    assert b == b[..k] + b[k..];
    TerminatorStable(b[..k], b[k..]);
    if Decoded(b[..k]).1 != 0 {
      DecodedStable(b[..k], b[k..]);
    }
  }

  lemma {:induction false} PrefixSafe(d: Dialect, b: seq<byte>, k: nat)
    requires !Deal(d, b).reset && ShortHeads(b) && k <= |b|
    ensures !Deal(d, b[..k]).reset
    decreases |b|, 1
  {
    var (v, n) := Decoded(b);
    PrefixHeader(b, k);
    hide Decoded;
    if 0 < n <= k && v <= MAX_FRAME {
      assert b[..k][n..] == b[n..][..k - n];
      BodyPrefixSafe(d, b[n..], v, k - n);
    }
  }

  lemma {:induction false} BodyPrefixSafe(d: Dialect, b: seq<byte>, length: nat, k: nat)
    requires length <= MAX_FRAME && !DealBody(d, b, length).reset && ShortBehind(b, length) && k <= |b|
    ensures !DealBody(d, b[..k], length).reset
    decreases |b|, 0
  {
    hide Decoded;
    if k >= length {
      assert b[..k][..length] == b[..length];
      if k > length {
        assert b[..k][length..] == b[length..][..k - length];
        PrefixSafe(d, b[length..], k - length);
      }
    }
  }

  lemma {:induction false} LongHeadPanics(d: Dialect, b: seq<byte>) returns (k: nat)
    requires !Deal(d, b).reset && !ShortHeads(b)
    ensures 0 < k <= |b| && Deal(d, b[..k]).reset
    decreases |b|, 1
  {
    var (v, n) := Decoded(b);
    if n > 5 {
      k := 5;
      PrefixHeader(b, k);
      assert b[..k][0..] == b[..k] && b[..k][..0] == [];
      hide Decoded;
    } else {
      hide Decoded;
      var j := LongHeadBehindPanics(d, b[n..], v);
      k := n + j;
      PrefixHeader(b, k);
      assert b[..k][n..] == b[n..][..j];
    }
  }

  lemma {:induction false} LongHeadBehindPanics(d: Dialect, b: seq<byte>, length: nat) returns (k: nat)
    requires length <= MAX_FRAME && !DealBody(d, b, length).reset && !ShortBehind(b, length)
    ensures k <= |b| && DealBody(d, b[..k], length).reset
    decreases |b|, 0
  {
    hide Decoded;
    var j := LongHeadPanics(d, b[length..]);
    k := length + j;
    assert b[..k][..length] == b[..length] && b[..k][length..] == b[length..][..j];
  }

  /** A run that continues a dealt prefix panics only where some longer prefix does. */
  lemma {:induction false} SafeRun(d: Dialect, c: seq<byte>, chunks: seq<seq<byte>>)
    requires forall k :: 0 <= k <= |c + Concat(chunks)| ==> !Deal(d, (c + Concat(chunks))[..k]).reset
    ensures Resting(Deal(d, c).held) && !Run(d, Deal(d, c).held, chunks).reset
    decreases |chunks|
  {
    DealRests(d, c);
    hide Deal, Feed;
    if chunks != [] {
      var b := c + Concat(chunks);
      assert b[..|c|] == c;
      var c' := c + chunks[0];
      assert c' + Concat(chunks[1..]) == b && b[..|c'|] == c';
      DealMerges(d, c, chunks[0]);
      SafeRun(d, c', chunks[1..]);
    }
  }

  lemma ShortHeadsRun(d: Dialect, b: seq<byte>, chunks: seq<seq<byte>>)
    requires !Deal(d, b).reset && ShortHeads(b) && Concat(chunks) == b
    ensures Run(d, Fresh, chunks) == Deal(d, b)
  {
    assert Deal(d, []).held == Fresh;
    hide Deal, Decoded, ShortHeads;
    assert [] + b == b;
    forall k | 0 <= k <= |b|
      ensures !Deal(d, b[..k]).reset
    {
      PrefixSafe(d, b, k);
    }
    SafeRun(d, [], chunks);
    CutsDoNotMatter(d, Fresh, chunks);
  }

  lemma PanicShows(d: Dialect, b: seq<byte>, k: nat) returns (chunks: seq<seq<byte>>)
    requires k <= |b| && Deal(d, b[..k]).reset
    ensures Concat(chunks) == b && Run(d, Fresh, chunks).reset
  {
    hide Deal, Decoded;
    chunks := [b[..k], b[k..]];
    assert chunks[1..] == [b[k..]] && [b[k..]][1..] == [];
    assert Concat([b[k..]]) == b[k..] + Concat([]) == b[k..];
    assert Concat(chunks) == b;
    assert [] + b[..k] == b[..k];
  }

  /** The exact condition on the bytes: those a single read survives give the same result however they
      are cut into reads, if and only if none of the headers in them takes more than five bytes. */
  lemma CutsDoNotMatterIff(d: Dialect, b: seq<byte>)
    requires !Deal(d, b).reset
    ensures (forall chunks :: Concat(chunks) == b ==> Run(d, Fresh, chunks) == Deal(d, b)) <==> ShortHeads(b)
  {
    hide Deal, Decoded, Run, Concat;
    if ShortHeads(b) {
      forall chunks | Concat(chunks) == b
        ensures Run(d, Fresh, chunks) == Deal(d, b)
      {
        ShortHeadsRun(d, b, chunks);
      }
    } else {
      var k := LongHeadPanics(d, b);
      var chunks := PanicShows(d, b, k);
    }
  }

  /** The proviso is needed: a padded six-byte header is read whole in one piece, but a read that
      ends before its last byte panics, and then the payload byte starts a new header. */
  lemma CutsMatterExample(d: Dialect)
    requires Deliverable(d, [7, 7])
    ensures var head: seq<byte> := [130, 128, 128, 128, 128, 0];
            && Run(d, Fresh, [head + [7, 7]]) == Outcome(Fresh, [[7, 7]], false)
            && Feed(d, Fresh, head[..5]) == Recovered
  {
    var head: seq<byte> := [130, 128, 128, 128, 128, 0];
    var p: seq<byte> := [7, 7];
    var b := head + p;
    PaddedHeader();
    hide Decoded;
    assert b[6..] == p && [] + b == b && p[..2] == p;
    assert DealBody(d, p, 2) == Outcome(Fresh, [p], false);
    assert Feed(d, Fresh, b) == Outcome(Fresh, [p], false);
    var once: seq<seq<byte>> := [b];
    assert once[1..] == [];
    var cut := head[..5];
    assert [] + cut == cut && cut[0..] == cut && cut[..0] == [];
  }

  lemma PaddedHeader()
    ensures var head: seq<byte> := [130, 128, 128, 128, 128, 0];
            Decoded(head + [7, 7]) == (2, 6) && Decoded(head[..5]) == (0, 0)
  {
    var head: seq<byte> := [130, 128, 128, 128, 128, 0];
    var b := head + [7, 7];
    assert Terminator(b) == 5 by {
      assert b[0] >= 128 && b[1] >= 128 && b[2] >= 128 && b[3] >= 128 && b[4] >= 128 && b[5] < 128;
    }
    assert b[..6] == head;
    PaddedValue();
    var cut := head[..5];
    assert Terminator(cut) == 5 by {
      assert cut[0] >= 128 && cut[1] >= 128 && cut[2] >= 128 && cut[3] >= 128 && cut[4] >= 128;
    }
  }

  lemma PaddedValue()
    ensures Value([130, 128, 128, 128, 128, 0]) == 2
  {
    var v: seq<byte> := [130, 128, 128, 128, 128, 0];
    assert v[1..] == [128, 128, 128, 128, 0];
    assert v[1..][1..] == [128, 128, 128, 0];
    assert v[1..][1..][1..] == [128, 128, 0];
    assert v[1..][1..][1..][1..] == [128, 0];
    assert v[1..][1..][1..][1..][1..] == [0];
    assert Value([0]) == 0;
    assert Value([128, 0]) == 0;
    assert Value([128, 128, 0]) == 0;
    assert Value([128, 128, 128, 0]) == 0;
    assert Value([128, 128, 128, 128, 0]) == 0;
  }

  // ----- the writer, and the round trip -----

  function Concat(chunks: seq<seq<byte>>): seq<byte> {
    if chunks == [] then [] else chunks[0] + Concat(chunks[1..])
  }

  /** HandleWrite: the length, cut to 32 bits, and the payload. */
  function Framed(payload: seq<byte>): seq<byte> {
    Encoded(|payload| % TWO_32) + payload
  }

  function Stream(payloads: seq<seq<byte>>): seq<byte> {
    if payloads == [] then [] else Framed(payloads[0]) + Stream(payloads[1..])
  }

  /** `h` followed by the bytes still to come is exactly what the writer sent for `todo`. */
  ghost predicate Owes(h: Held, todo: seq<seq<byte>>, coming: seq<byte>) {
    if h.frameLength == 0 then h.buffer + coming == Stream(todo)
    else
      && todo != []
      && h.frameLength == |todo[0]|
      && h.buffer + coming == todo[0] + Stream(todo[1..])
  }

  ghost predicate AllDeliverable(d: Dialect, payloads: seq<seq<byte>>) {
    forall p :: p in payloads ==> Deliverable(d, p)
  }

  /** Dealing a prefix of the stream hands on the first k payloads and owes the others. */
  lemma {:induction false} DealPrefix(d: Dialect, b: seq<byte>, todo: seq<seq<byte>>, coming: seq<byte>)
    returns (k: nat)
    requires AllDeliverable(d, todo) && b + coming == Stream(todo)
    ensures k <= |todo|
    ensures var o := Deal(d, b);
            !o.reset && o.frames == todo[..k] && Owes(o.held, todo[k..], coming)
    decreases |b|, 1
  {
    k := 0;
    if todo == [] {
      assert b == [];
      return;
    }
    var p := todo[0];
    assert p in todo;
    var head := Encoded(|p|);
    HeaderIsShort(|p|);
    assert Framed(p) + Stream(todo[1..]) == head + (p + Stream(todo[1..]));
    CutAtHeader(b, coming, head, p + Stream(todo[1..]));
    if |b| < |head| {
      PrefixIncomplete(|p|, |b|);
      assert todo[0..] == todo;
    } else {
      RoundTrip(|p|, b[|head|..]);
      k := DealBodyPrefix(d, b[|head|..], todo, coming);
    }
  }

  /** A prefix of head + tail is a prefix of head, or head and a prefix of tail. */
  lemma CutAtHeader(b: seq<byte>, coming: seq<byte>, head: seq<byte>, tail: seq<byte>)
    requires b + coming == head + tail
    ensures |b| < |head| ==> b == head[..|b|]
    ensures |b| >= |head| ==> b == head + b[|head|..] && b[|head|..] + coming == tail
  {
    if |b| < |head| {
      assert b == (b + coming)[..|b|] == head[..|b|];
    } else {
      assert b[..|head|] == (b + coming)[..|head|] == head;
      assert (b + coming)[|head|..] == b[|head|..] + coming;
    }
  }

  lemma {:induction false} DealBodyPrefix(d: Dialect, b: seq<byte>, todo: seq<seq<byte>>, coming: seq<byte>)
    returns (k: nat)
    requires AllDeliverable(d, todo) && todo != [] && b + coming == todo[0] + Stream(todo[1..])
    requires |todo[0]| <= MAX_FRAME
    ensures k <= |todo|
    ensures var o := DealBody(d, b, |todo[0]|);
            !o.reset && o.frames == todo[..k] && Owes(o.held, todo[k..], coming)
    decreases |b|, 0
  {
    var p := todo[0];
    assert p in todo;
    k := 0;
    if |b| < |p| {
      assert todo[0..] == todo;
      return;
    }
    CutAtHeader(b, coming, p, Stream(todo[1..]));
    var rest := b[|p|..];
    if rest == [] {
      k := 1;
      assert todo[..1] == [p];
      assert b == p && b[..|p|] == p;
    } else {
      assert b[..|p|] == p;
      var j := DealPrefix(d, rest, todo[1..], coming);
      k := j + 1;
      assert todo[..k] == [p] + todo[1..][..j];
      assert todo[1..][j..] == todo[k..];
    }
  }

  /** A header that may be acted on has at most four bytes. */
  lemma HeaderIsShort(length: nat)
    requires length <= MAX_FRAME
    ensures |Encoded(length)| <= 4
    ensures length % TWO_32 == length
  {
    Pow2Values();
    EncodedLength(length, 4);
  }

  lemma FeedPrefix(d: Dialect, h: Held, chunk: seq<byte>, todo: seq<seq<byte>>, coming: seq<byte>)
    returns (k: nat)
    requires AllDeliverable(d, todo) && h.frameLength <= MAX_FRAME
    requires Owes(h, todo, chunk + coming)
    ensures k <= |todo|
    ensures var o := Feed(d, h, chunk);
            !o.reset && o.frames == todo[..k] && Owes(o.held, todo[k..], coming)
  {
    assert h.buffer + (chunk + coming) == (h.buffer + chunk) + coming;
    if h.frameLength == 0 {
      k := DealPrefix(d, h.buffer + chunk, todo, coming);
    } else {
      k := DealBodyPrefix(d, h.buffer + chunk, todo, coming);
    }
  }

  lemma {:induction false} RunPrefix(d: Dialect, h: Held, chunks: seq<seq<byte>>, todo: seq<seq<byte>>)
    requires AllDeliverable(d, todo) && Resting(h)
    requires Owes(h, todo, Concat(chunks))
    ensures Run(d, h, chunks) == Outcome(Fresh, todo, false)
    decreases |chunks|
  {
    if chunks == [] {
      NothingOwedAtRest(d, h, todo);
    } else {
      var k := FeedPrefix(d, h, chunks[0], todo, Concat(chunks[1..]));
      var o := Feed(d, h, chunks[0]);
      FeedRests(d, h, chunks[0]);
      RunPrefix(d, o.held, chunks[1..], todo[k..]);
      assert todo == todo[..k] + todo[k..];
    }
  }

  /** When nothing more comes, a resting decoder owes nothing. */
  lemma NothingOwedAtRest(d: Dialect, h: Held, todo: seq<seq<byte>>)
    requires AllDeliverable(d, todo) && Resting(h) && Owes(h, todo, [])
    ensures todo == [] && h == Fresh
  {
    assert h.buffer + [] == h.buffer;
    if todo != [] {
      var p := todo[0];
      assert p in todo;
      if h.frameLength == 0 {
        HeaderIsShort(|p|);
        var rest := p + Stream(todo[1..]);
        assert h.buffer == Encoded(|p|) + rest;
        RoundTrip(|p|, rest);
        assert false;
      }
    }
  }

  /** The round trip, exactly. However the stream of framed payloads is cut into reads, the decoder
      hands on those payloads, in order, each once, and ends empty - if and only if every payload is
      deliverable. */
  lemma ReassemblyExact(d: Dialect, payloads: seq<seq<byte>>, chunks: seq<seq<byte>>)
    requires Concat(chunks) == Stream(payloads)
    ensures Run(d, Fresh, chunks).frames == payloads <==> AllDeliverable(d, payloads)
    ensures AllDeliverable(d, payloads) ==> Run(d, Fresh, chunks) == Outcome(Fresh, payloads, false)
  {
    AnyBytesRest(d, Fresh, chunks);
    if AllDeliverable(d, payloads) {
      assert [] + Concat(chunks) == Stream(payloads);
      RunPrefix(d, Fresh, chunks, payloads);
    }
  }

  /** In the writer's terms: payloads of up to 2 MiB that no handler faults on arrive, exactly, in order and
      under every cutting, if none is empty or the first type mark alone. Payloads of two bytes and more
      are never in question. */
  lemma OrdinaryPayloadsArrive(d: Dialect, payloads: seq<seq<byte>>, chunks: seq<seq<byte>>)
    requires Concat(chunks) == Stream(payloads)
    requires forall p :: p in payloads ==>
               p != [] && p != [d.mark0] && |p| <= 0x20_0000 && !d.faults(p)
    ensures Run(d, Fresh, chunks) == Outcome(Fresh, payloads, false)
  {
    ReassemblyExact(d, payloads, chunks);
  }

  /** And the others, each by what one read makes of it and of what follows it. */
  lemma OtherPayloadsFail(d: Dialect, p: seq<byte>, rest: seq<byte>)
    ensures p == [] || p == [d.mark0] || (d.faults(p) && |p| <= 0x20_0000) ==>
              Deal(d, Framed(p) + rest) == Outcome(Held([], 0), [], true)
    ensures 0x20_0000 < |p| < 0x1_0000_0000 ==>
              Deal(d, Framed(p) + rest) == Outcome(Held(Framed(p) + rest, 0), [], false)
  {
    if p == [] || p == [d.mark0] || d.faults(p) || |p| > 0x20_0000 {
      if |p| < TWO_32 {
        ModUnique(|p|, TWO_32, 0, |p|);
        DealBad(d, p, rest);
      }
    }
  }

  /** What one read makes of a stream with an undeliverable payload: the payloads in front of the first
      one are handed on. If it is small enough to be looked at, it and everything behind it in the read are
      gone; if its header announces too much, they are kept and block the decoder. */
  lemma {:induction false} FirstBadPayload(d: Dialect, payloads: seq<seq<byte>>, i: nat)
    requires i < |payloads| && AllDeliverable(d, payloads[..i]) && !Deliverable(d, payloads[i])
    requires |payloads[i]| <= MAX_FRAME || |payloads[i]| % TWO_32 > MAX_FRAME
    ensures Deal(d, Stream(payloads)) ==
            if |payloads[i]| <= MAX_FRAME then Outcome(Fresh, payloads[..i], true)
            else Outcome(Held(Stream(payloads[i..]), 0), payloads[..i], false)
    decreases |payloads|
  {
    hide Deal, Deliverable;
    var p, rest := payloads[0], Stream(payloads[1..]);
    if i == 0 {
      assert payloads[..0] == [] && payloads[0..] == payloads;
      DealBad(d, p, rest);
    } else {
      assert p == payloads[..i][0];
      StreamNotEmpty(payloads[1..]);
      DealGood(d, p, rest);
      assert payloads[1..][..i - 1] == payloads[..i][1..] && payloads[1..][i - 1..] == payloads[i..];
      FirstBadPayload(d, payloads[1..], i - 1);
      assert [p] + payloads[1..][..i - 1] == payloads[..i];
    }
  }

  /** Dealing past the header of a framed payload. */
  lemma DealHead(d: Dialect, p: seq<byte>, rest: seq<byte>)
    ensures Deal(d, Framed(p) + rest) ==
            if |p| % TWO_32 > MAX_FRAME then Outcome(Held(Framed(p) + rest, 0), [], false)
            else DealBody(d, p + rest, |p| % TWO_32)
  {
    var head := Encoded(|p| % TWO_32);
    assert Framed(p) + rest == head + (p + rest);
    RoundTrip(|p| % TWO_32, p + rest);
    assert (head + (p + rest))[|head|..] == p + rest;
    hide Decoded, Encoded, DealBody;
  }

  lemma DealBad(d: Dialect, p: seq<byte>, rest: seq<byte>)
    requires !Deliverable(d, p) && (|p| <= MAX_FRAME || |p| % TWO_32 > MAX_FRAME)
    ensures Deal(d, Framed(p) + rest) ==
            if |p| <= MAX_FRAME then Recovered else Outcome(Held(Framed(p) + rest, 0), [], false)
  {
    DealHead(d, p, rest);
    hide Deal, Framed, Deliverable;
    if |p| <= MAX_FRAME {
      HeaderIsShort(|p|);
      assert (p + rest)[..|p|] == p;
    }
  }

  lemma DealGood(d: Dialect, p: seq<byte>, rest: seq<byte>)
    requires Deliverable(d, p) && rest != []
    ensures Deal(d, Framed(p) + rest) == Prepend([p], Deal(d, rest))
  {
    DealHead(d, p, rest);
    HeaderIsShort(|p|);
    hide Deal, Framed, Deliverable;
    assert (p + rest)[..|p|] == p && (p + rest)[|p|..] == rest;
  }

  lemma StreamNotEmpty(payloads: seq<seq<byte>>)
    requires payloads != []
    ensures Stream(payloads) != []
  {
  }

  /** So one empty payload is enough to lose the frames behind it in its read. */
  lemma EmptyPayloadLosesNeighbours(d: Dialect, p: seq<byte>)
    requires Deliverable(d, p)
    ensures Run(d, Fresh, [Stream([[], p])]) == Outcome(Fresh, [], true)
  {
    var payloads := [[], p];
    FirstBadPayload(d, payloads, 0);
    hide Deal, Stream;
    assert [Stream(payloads)][1..] == [] && [] + Stream(payloads) == Stream(payloads);
  }
}
