/**
 * LINE_END framing: a frame is the bytes before a fixed delimiter
 * (LF, CR or CRLF); the delimiter itself is consumed and dropped.
 */
module LineEndingFrameDecoder {
  import opened Wrappers
  import opened Config
  import opened ByteBufSearch

  /** The delimiter bytes of each line ending: LF 0A, CR 0D, CRLF 0D 0A. */
  function Delimiter(ending: LineEnding): (d: seq<byte>)
    ensures 1 <= |d| <= 2 && d[|d| - 1] in {0x0A, 0x0D}
  {
    match ending
    case LF => [0x0A]
    case CR => [0x0D]
    case CRLF => [0x0D, 0x0A]
  }

  /**
   * One turn of the decode loop from reader index `r`: with fewer readable
   * bytes than the delimiter, or no delimiter, nothing is emitted and
   * nothing consumed; otherwise the bytes before the first delimiter are
   * emitted and the reader moves past it.
   */
  function LineTurn(data: seq<byte>, r: nat, d: seq<byte>): (t: (Option<seq<byte>>, nat))
    requires r <= |data| && |d| > 0
    ensures r <= t.1 <= |data|
    ensures t.0.Some? ==> r < t.1
    ensures t.0.None? ==> t.1 == r
  {
    if |data| - r < |d| then (None, r)
    else
      var i := FirstIndexOf(data, r, |data|, d);
      if i < 0 then (None, r)
      else (Some(data[r..i]), i + |d|)
  }

  /**
   * What the decode loop produces from reader index `r`: the frames, in
   * order, and the reader index it leaves behind.
   */
  function LineFrames(data: seq<byte>, r: nat, d: seq<byte>): (res: (seq<seq<byte>>, nat))
    requires r <= |data| && |d| > 0
    ensures r <= res.1 <= |data|
    decreases |data| - r
  {
    var t := LineTurn(data, r, d);
    if t.0.None? then ([], t.1)
    else
      var rest := LineFrames(data, t.1, d);
      ([t.0.value] + rest.0, rest.1)
  }

  /** One turn of the decode loop, when a delimiter is found at `i`. */
  lemma LineFramesStep(data: seq<byte>, r: nat, d: seq<byte>, i: int)
    requires r <= |data| && |d| > 0
    requires |data| - r >= |d| && i == FirstIndexOf(data, r, |data|, d) && i >= 0
    ensures LineFrames(data, r, d) ==
      ([data[r..i]] + LineFrames(data, i + |d|, d).0, LineFrames(data, i + |d|, d).1)
  {
  }

  /** When no delimiter is found the loop stops without consuming anything. */
  lemma LineFramesStop(data: seq<byte>, r: nat, d: seq<byte>)
    requires r <= |data| && |d| > 0
    requires |data| - r < |d| || FirstIndexOf(data, r, |data|, d) < 0
    ensures LineFrames(data, r, d) == ([], r)
  {
  }

  /**
   * Nothing is consumed and no frame is emitted exactly when no whole
   * delimiter lies in the readable bytes.
   */
  lemma LineFramesIncomplete(data: seq<byte>, r: nat, d: seq<byte>)
    requires r <= |data| && |d| > 0
    ensures LineFrames(data, r, d).0 == [] <==> LineFrames(data, r, d).1 == r
    ensures LineFrames(data, r, d).1 == r <==> forall j :: r <= j ==> !OccursAt(data, j, d)
  {
    if |data| - r >= |d| {
      FirstIndexOfSpec(data, r, |data|, d);
      var i := FirstIndexOf(data, r, |data|, d);
      if i >= 0 {
        LineFramesStep(data, r, d, i);
      }
    }
  }

  /** After decoding, the unconsumed tail holds no whole delimiter. */
  lemma {:induction false} LineFramesTail(data: seq<byte>, r: nat, d: seq<byte>)
    requires r <= |data| && |d| > 0
    ensures forall j :: LineFrames(data, r, d).1 <= j ==> !OccursAt(data, j, d)
    decreases |data| - r
  {
    if |data| - r >= |d| && FirstIndexOf(data, r, |data|, d) >= 0 {
      var i := FirstIndexOf(data, r, |data|, d);
      assert LineFrames(data, r, d).1 == LineFrames(data, i + |d|, d).1 by {
        LineFramesStep(data, r, d, i);
      }
      LineFramesTail(data, i + |d|, d);
    } else {
      LineFramesStop(data, r, d);
      if |data| - r >= |d| {
        FirstIndexOfSpec(data, r, |data|, d);
      }
    }
  }

  /** A slice that passes over an occurrence of `d` at `i`, in three parts. */
  lemma SliceAround(data: seq<byte>, r: nat, i: nat, e: nat, d: seq<byte>)
    requires r <= i && i + |d| <= e <= |data| && OccursAt(data, i, d)
    ensures data[r..e] == data[r..i] + d + data[i + |d|..e]
  {
    assert data[r..e] == data[r..i] + data[i..i + |d|] + data[i + |d|..e];
  }

  /** Frames written back with their delimiters. */
  function JoinLines(frames: seq<seq<byte>>, d: seq<byte>): seq<byte> {
    if frames == [] then [] else frames[0] + d + JoinLines(frames[1..], d)
  }

  /**
   * Framing is exact: the consumed bytes are precisely the frames, each
   * followed by one delimiter.
   */
  lemma {:induction false} LineFramesConsumed(data: seq<byte>, r: nat, d: seq<byte>)
    requires r <= |data| && |d| > 0
    ensures data[r..LineFrames(data, r, d).1] == JoinLines(LineFrames(data, r, d).0, d)
    decreases |data| - r
  {
    if |data| - r >= |d| && FirstIndexOf(data, r, |data|, d) >= 0 {
      var i := FirstIndexOf(data, r, |data|, d);
      var rest := LineFrames(data, i + |d|, d);
      var frames := [data[r..i]] + rest.0;
      assert LineFrames(data, r, d) == (frames, rest.1) by {
        LineFramesStep(data, r, d, i);
      }
      LineFramesConsumed(data, i + |d|, d);
      assert JoinLines(frames, d) == data[r..i] + d + JoinLines(rest.0, d) by {
        assert frames[0] == data[r..i] && frames[1..] == rest.0;
      }
      assert OccursAt(data, i, d) by {
        FirstIndexOfSpec(data, r, |data|, d);
      }
      SliceAround(data, r, i, rest.1, d);
      assert data[r..rest.1] == JoinLines(frames, d);
    } else {
      LineFramesStop(data, r, d);
      assert data[r..r] == [];
    }
  }

  /** No frame contains the delimiter. */
  lemma {:induction false} LineFramesDelimiterFree(data: seq<byte>, r: nat, d: seq<byte>)
    requires r <= |data| && |d| > 0
    ensures FramesFree(LineFrames(data, r, d).0, d)
    decreases |data| - r
  {
    var i := if |data| - r >= |d| then FirstIndexOf(data, r, |data|, d) else -1;
    if i >= 0 {
      LineFramesStep(data, r, d, i);
      LineFramesDelimiterFree(data, i + |d|, d);
      assert forall j :: !OccursAt(data[r..i], j, d) by {
        FirstIndexOfSpec(data, r, |data|, d);
        FrameFree(data, r, i, d);
      }
      ConsFree(data[r..i], LineFrames(data, i + |d|, d).0, d);
    } else {
      LineFramesStop(data, r, d);
    }
  }

  /**
   * Delivery may be split anywhere: decoding `a`, then decoding again
   * after `b` arrives, yields the same frames and reader index as
   * decoding `a + b` at once.
   */
  lemma {:induction false} LineFramesSplit(a: seq<byte>, b: seq<byte>, r: nat, d: seq<byte>)
    requires r <= |a| && |d| > 0
    ensures var first := LineFrames(a, r, d);
      var second := LineFrames(a + b, first.1, d);
      LineFrames(a + b, r, d) == (first.0 + second.0, second.1)
    decreases |a| - r
  {
    if |a| - r >= |d| && FirstIndexOf(a, r, |a|, d) >= 0 {
      var i := FirstIndexOf(a, r, |a|, d);
      LineFramesSplit(a, b, i + |d|, d);
      LineFramesSplitStep(a, b, r, d, i);
    } else {
      var whole := LineFrames(a + b, r, d);
      assert LineFrames(a, r, d) == ([], r) by {
        LineFramesStop(a, r, d);
      }
      assert [] + whole.0 == whole.0;
    }
  }

  /** The inductive step of LineFramesSplit, for a delimiter found in `a` at `i`. */
  lemma LineFramesSplitStep(a: seq<byte>, b: seq<byte>, r: nat, d: seq<byte>, i: int)
    requires r <= |a| && |d| > 0
    requires |a| - r >= |d| && i == FirstIndexOf(a, r, |a|, d) && i >= 0
    requires var first := LineFrames(a, i + |d|, d);
      LineFrames(a + b, i + |d|, d) == (first.0 + LineFrames(a + b, first.1, d).0, LineFrames(a + b, first.1, d).1)
    ensures var first := LineFrames(a, r, d);
      var second := LineFrames(a + b, first.1, d);
      LineFrames(a + b, r, d) == (first.0 + second.0, second.1)
  {
    var ab := a + b;
    FirstIndexOfExtend(a, b, r, d);
    var tailA := LineFrames(a, i + |d|, d);
    var tailAB := LineFrames(ab, i + |d|, d);
    var second := LineFrames(ab, tailA.1, d);
    var head := a[r..i];
    assert ab[r..i] == head;
    LineFramesStep(a, r, d, i);
    LineFramesStep(ab, r, d, i);
    PrependGlue(LineFrames(ab, r, d), LineFrames(a, r, d), tailA, tailAB, second, head);
  }

  /**
   * Encoding then decoding: a payload followed by the delimiter decodes to
   * exactly that payload when the delimiter does not start inside it.
   */
  lemma LineRoundTrip(payload: seq<byte>, d: seq<byte>)
    requires |d| > 0
    requires forall j :: 0 <= j < |payload| ==> !OccursAt(payload + d, j, d)
    ensures LineFrames(payload + d, 0, d) == ([payload], |payload| + |d|)
  {
    var data := payload + d;
    var n := |payload|;
    assert LineFrames(data, 0, d) == ([data[0..n]] + [], |data|) by {
      assert FirstIndexOf(data, 0, |data|, d) == n by {
        assert data[n..n + |d|] == d;
        FirstIndexOfUnique(data, 0, |data|, d, n);
      }
      LineFramesStop(data, |data|, d);
      LineThen(data, 0, d, n, data[0..n], ([], |data|));
    }
    assert data[0..n] == payload;
    assert [payload] + [] == [payload];
  }

  /** LineFramesStep with the frame and what follows it already known. */
  lemma LineThen(data: seq<byte>, r: nat, d: seq<byte>, i: int, f: seq<byte>, rest: (seq<seq<byte>>, nat))
    requires r <= |data| && |d| > 0
    requires |data| - r >= |d| && i == FirstIndexOf(data, r, |data|, d) && i >= 0
    requires data[r..i] == f && LineFrames(data, i + |d|, d) == rest
    ensures LineFrames(data, r, d) == ([f] + rest.0, rest.1)
  {
    LineFramesStep(data, r, d, i);
  }

  /** For the one-byte delimiters the condition is just "no delimiter byte in the payload". */
  lemma SingleByteRoundTrip(payload: seq<byte>, ending: LineEnding)
    requires ending != CRLF
    requires forall j :: 0 <= j < |payload| ==> payload[j] != Delimiter(ending)[0]
    ensures LineFrames(payload + Delimiter(ending), 0, Delimiter(ending)) ==
      ([payload], |payload| + 1)
  {
    var d := Delimiter(ending);
    forall j | 0 <= j < |payload|
      ensures !OccursAt(payload + d, j, d)
    {
      assert (payload + d)[j] == payload[j];
    }
    LineRoundTrip(payload, d);
  }

  /** "A\nB\n" with LF yields exactly "A" and "B". */
  lemma LfTwoFramesInOneBuffer()
    ensures LineFrames([0x41, 0x0A, 0x42, 0x0A], 0, Delimiter(LF)) == ([[0x41], [0x42]], 4)
  {
    var data: seq<byte> := [0x41, 0x0A, 0x42, 0x0A];
    var d := Delimiter(LF);
    var f0: seq<byte> := [0x41];
    var f2: seq<byte> := [0x42];
    assert LineFrames(data, 2, d) == ([f2] + [], 4) by {
      assert data[2..3] == f2 && data[3..4] == d;
      FirstIndexOfUnique(data, 2, 4, d, 3);
      LineFramesStop(data, 4, d);
      LineThen(data, 2, d, 3, f2, ([], 4));
    }
    assert [f2] + [] == [f2];
    assert LineFrames(data, 0, d) == ([f0] + [f2], 4) by {
      assert data[0..1] == f0 && data[1..2] == d;
      FirstIndexOfUnique(data, 0, 4, d, 1);
      LineThen(data, 0, d, 1, f0, ([f2], 4));
    }
    assert [f0] + [f2] == [f0, f2];
  }

  /** CRLF split across deliveries: "HELLO\r" yields nothing, adding "\n" yields "HELLO". */
  lemma CrlfSplitAcrossBuffers()
    ensures LineFrames([0x48, 0x45, 0x4C, 0x4C, 0x4F, 0x0D], 0, Delimiter(CRLF)) == ([], 0)
    ensures LineFrames([0x48, 0x45, 0x4C, 0x4C, 0x4F, 0x0D] + [0x0A], 0, Delimiter(CRLF)) ==
      ([[0x48, 0x45, 0x4C, 0x4C, 0x4F]], 7)
  {
    var a: seq<byte> := [0x48, 0x45, 0x4C, 0x4C, 0x4F, 0x0D];
    var d := Delimiter(CRLF);
    forall j | 0 <= j
      ensures !OccursAt(a, j, d)
    {
    }
    FirstIndexOfSpec(a, 0, |a|, d);
    LineFramesStop(a, 0, d);
    var p := a[..5];
    assert p + d == a + [0x0A];
    forall j | 0 <= j < |p|
      ensures !OccursAt(p + d, j, d)
    {
    }
    LineRoundTrip(p, d);
    assert p == [0x48, 0x45, 0x4C, 0x4C, 0x4F];
  }

  /** The decode loop's invariant: `out` and what is left to decode from `r` make up the whole. */
  ghost predicate EmittedSoFar(data: seq<byte>, r0: nat, out: seq<seq<byte>>, r: nat, d: seq<byte>)
    requires r0 <= r <= |data| && |d| > 0
  {
    LineFrames(data, r0, d) == (out + LineFrames(data, r, d).0, LineFrames(data, r, d).1)
  }

  class LineEndingFrameDecoder {
    const delimiter: seq<byte>

    ghost predicate Valid() {
      |delimiter| > 0
    }

    constructor (ending: LineEnding)
      ensures Valid() && delimiter == Delimiter(ending)
    {
      delimiter := Delimiter(ending);
    }

    /** One turn of the `decode` loop, as LineTurn describes it. */
    method DecodeTurn(buf: ByteBuf) returns (frame: Option<seq<byte>>)
      requires Valid() && buf.Valid()
      modifies buf`readerIndex
      ensures buf.Valid()
      ensures (frame, buf.readerIndex) == LineTurn(buf.data, old(buf.readerIndex), delimiter)
    {
      var readerIdx := buf.readerIndex;
      var writerIdx := |buf.data|;
      if writerIdx - readerIdx < |delimiter| {
        return None;
      }
      var found := IndexOf(buf, readerIdx, writerIdx, delimiter);
      var delimIdx := found.value;
      if delimIdx < 0 {
        return None;
      }
      frame := Some(buf.data[readerIdx..delimIdx]);
      buf.readerIndex := delimIdx + |delimiter|;
    }

    /**
     * `decode`: emit every complete frame from the readable bytes and move
     * the reader index past the last consumed delimiter.
     */
    method Decode(buf: ByteBuf) returns (out: seq<seq<byte>>)
      requires Valid() && buf.Valid()
      modifies buf`readerIndex
      ensures buf.Valid()
      ensures (out, buf.readerIndex) == LineFrames(buf.data, old(buf.readerIndex), delimiter)
    {
      out := [];
      ghost var data := buf.data;
      ghost var r0 := buf.readerIndex;
      assert [] + LineFrames(data, r0, delimiter).0 == LineFrames(data, r0, delimiter).0;
      while true
        invariant buf.data == data && r0 <= buf.readerIndex <= |data|
        invariant EmittedSoFar(data, r0, out, buf.readerIndex, delimiter)
        decreases |data| - buf.readerIndex
      {
        ghost var r := buf.readerIndex;
        var frame := DecodeTurn(buf);
        if frame.None? {
          assert out + [] == out;
          return;
        }
        EmitOne(LineFrames(data, r0, delimiter), out, LineFrames(data, r, delimiter),
          frame.value, LineFrames(data, buf.readerIndex, delimiter));
        out := out + [frame.value];
      }
    }
  }
}
