/** The codec object itself: the fields and the loop of readAndDeal, proved to do to them what
    FrameReassembly says a read means. One class serves both codecs; they differ in the dialect. */
module FrameDecoder {
  import opened Bits
  import opened Varint
  import opened FrameReassembly

  class Codec {
    const dialect: Dialect
    var buffer: seq<byte>
    var frameLength: nat

    ghost function Fields(): Held
      reads this
    {
      Held(buffer, frameLength)
    }

    constructor (d: Dialect)
      ensures dialect == d && Fields() == Fresh
    {
      dialect := d;
      buffer, frameLength := [], 0;
    }

    /** The type test on data[0] and data[1], short-circuit as written, then the hand-over to the typed
        or the default branch. Not to survive is to panic. */
    method HandOn(data: seq<byte>) returns (survived: bool, typed: bool)
      ensures survived <==> data != [] && data != [dialect.mark0] && !dialect.faults(data)
      ensures survived ==> (typed <==> |data| >= 2 && data[..2] == [dialect.mark0, dialect.mark1])
    {
      if |data| == 0 {
        return false, false;
      }
      typed := false;
      if data[0] == dialect.mark0 {
        if |data| == 1 {
          return false, false;
        }
        typed := data[1] == dialect.mark1;
        assert data[..2] == [data[0], data[1]];
      }
      return !dialect.faults(data), typed;
    }

    /** What the deferred recover does after a panic. */
    method Recover()
      modifies this
      ensures Fields() == Fresh
    {
      frameLength := 0;
      buffer := [];
    }

    /** HandleWrite once the message is marshalled: header and payload as two buffers. */
    method HandleWrite(payload: seq<byte>) returns (out: seq<seq<byte>>)
      ensures |out| == 2 && out[1] == payload
      ensures Concat(out) == Framed(payload)
    {
      var length: uint32 := |payload| % TWO_32;
      Pow2Values();
      EncodedLength(length, 5);
      var head := new byte[5];
      var n := PutUvarint32(head, length);
      out := [head[..n], payload];
      assert out[1..][1..] == [];
      assert Concat(out[1..]) == payload + [] == payload;
    }

    /** HandleRead, tcp branch. */
    method HandleRead(chunk: seq<byte>) returns (frames: seq<seq<byte>>, reset: bool)
      requires Resting(Fields())
      modifies this
      ensures Outcome(Fields(), frames, reset) == Feed(dialect, old(Fields()), chunk)
      ensures Resting(Fields())
    {
      ghost var before := Fields();
      FeedRests(dialect, before, chunk);
      buffer := buffer + chunk;
      frames, reset := ReadAndDeal();
    }

    method ReadAndDeal() returns (frames: seq<seq<byte>>, reset: bool)
      requires frameLength <= MAX_FRAME
      modifies this
      ensures Outcome(Fields(), frames, reset) ==
              if old(frameLength) == 0 then Deal(dialect, old(buffer))
              else DealBody(dialect, old(buffer), old(frameLength))
    {
      hide Decoded, Deliverable;
      frames, reset := [], false;
      var length: nat := frameLength;
      if frameLength == 0 {
        var v, num := Uvarint32(buffer);
        if (num == 0 && |buffer| < 5) || v > MAX_FRAME {
          frameLength := 0;
          return;
        }
        if num < 0 {
          Recover();
          return [], true;
        }
        frameLength := v;
        length := v;
        buffer := buffer[num..];
      }
      ghost var goal := DealBody(dialect, buffer, length);
      if |buffer| == length {
        assert buffer[..length] == buffer;
        frames, reset := TakeLast([]);
      } else if |buffer| > length {
        frames, reset := DealMany(length);
      }
    }

    /** The buffer is exactly the awaited frame. */
    method TakeLast(taken: seq<seq<byte>>) returns (frames: seq<seq<byte>>, reset: bool)
      requires |buffer| <= MAX_FRAME
      modifies this
      ensures Fields() == Fresh
      ensures if Deliverable(dialect, old(buffer)) then frames == taken + [old(buffer)] && !reset
              else frames == taken && reset
    {
      var data := buffer;
      buffer := [];
      frameLength := 0;
      var survived, typed := HandOn(data);
      if survived {
        return taken + [data], false;
      }
      Recover();
      return taken, true;
    }

    /** The loop over several frames in one buffer. */
    method DealMany(first: nat) returns (frames: seq<seq<byte>>, reset: bool)
      requires first <= MAX_FRAME && first < |buffer|
      modifies this
      ensures Outcome(Fields(), frames, reset) == DealBody(dialect, old(buffer), first)
    {
      hide Decoded, Deliverable, DealBody;
      var length: nat := first;
      frames, reset := [], false;
      ghost var goal := DealBody(dialect, buffer, first);
      while |buffer| > length
        invariant length <= MAX_FRAME
        invariant goal == Prepend(frames, DealBody(dialect, buffer, length))
        invariant frames != [] ==> frameLength == length
        invariant frames == [] ==> |buffer| > length
        decreases |buffer|
      {
        DealTurn(dialect, frames, buffer, length);
        var data := buffer[..length];
        buffer := buffer[length..];
        DeliverableIs(dialect, data);
        var survived, typed := HandOn(data);
        if !survived {
          Recover();
          return frames, true;
        }
        frames := frames + [data];
        var v, num := Uvarint32(buffer);
        if (num == 0 && |buffer| < 5) || v > MAX_FRAME {
          frameLength := 0;
          return;
        }
        if num < 0 {
          Recover();
          return frames, true;
        }
        frameLength := v;
        length := v;
        buffer := buffer[num..];
      }
      if |buffer| == length {
        assert buffer[..length] == buffer;
        DealLast(dialect, frames, buffer);
        frames, reset := TakeLast(frames);
      } else {
        DealWaits(dialect, frames, buffer, length);
      }
    }
  }
}
