/**
 * REGEX framing: the readable bytes are read as text, one character per
 * byte, and each match of the configured pattern is a frame. Bytes before
 * a match are dropped. More than 256 KiB of readable bytes is a protocol
 * violation: the buffer is discarded and the connection closed.
 */
module RegexFrameDecoder {
  import opened Wrappers
  import opened ByteBufSearch
  import opened Patterns
  import JavaText

  /** The buffer ceiling, 256 KiB. */
  const MAX_BUFFER_BYTES: nat := 256 * 1024

  /** The readable bytes as text: character offsets are byte offsets. */
  function ByteText(bs: seq<byte>): (s: string)
    ensures |s| == |bs|
    ensures forall i :: 0 <= i < |bs| ==> s[i] as int == bs[i] as int
  {
    seq(|bs|, i requires 0 <= i < |bs| => (bs[i] as int) as char)
  }

  /** Why a decode call stops. */
  datatype RegexStop =
    | Waiting    // nothing readable, or no match yet: wait for more input
    | Overflow   // more than MAX_BUFFER_BYTES readable: discard all and close
    | EmptyMatch // the pattern matched the empty string: IllegalStateException

  /** One turn of the decode loop: a frame and where reading resumes, or a stop. */
  datatype RegexTurnResult =
    | Emit(frame: seq<byte>, next: nat)
    | Stop(reason: RegexStop, reader: nat)

  /** One turn of the decode loop from reader index `r`. */
  function RegexTurn(data: seq<byte>, r: nat, find: Matcher): (t: RegexTurnResult)
    requires r <= |data| && MatcherSound(find)
    ensures t.Emit? ==> r < t.next <= |data|
    ensures t.Stop? ==> r <= t.reader <= |data|
  {
    var readable := |data| - r;
    if readable <= 0 then Stop(Waiting, r)
    else if readable > MAX_BUFFER_BYTES then Stop(Overflow, |data|)
    else
      var s := ByteText(data[r..]);
      match find(s)
      case None => Stop(Waiting, r)
      case Some(m) =>
        assert SpanWithin(find(s), s);
        if m.end <= m.start then Stop(EmptyMatch, r)
        else Emit(data[r + m.start..r + m.end], r + m.end)
  }

  /**
   * What a decode call produces from reader index `r`: the frames, in
   * order, the reader index it leaves and why it stopped.
   */
  function RegexFrames(data: seq<byte>, r: nat, find: Matcher): (res: (seq<seq<byte>>, nat, RegexStop))
    requires r <= |data| && MatcherSound(find)
    ensures r <= res.1 <= |data|
    decreases |data| - r
  {
    match RegexTurn(data, r, find)
    case Stop(reason, reader) => ([], reader, reason)
    case Emit(frame, next) =>
      var rest := RegexFrames(data, next, find);
      ([frame] + rest.0, rest.1, rest.2)
  }

  /**
   * More than 256 KiB readable: whatever the pattern, the whole buffer is
   * discarded, nothing is emitted and the connection is to be closed.
   */
  lemma RegexOverflow(data: seq<byte>, r: nat, find: Matcher)
    requires r <= |data| && MatcherSound(find)
    requires |data| - r > MAX_BUFFER_BYTES
    ensures RegexFrames(data, r, find) == ([], |data|, Overflow)
  {
  }

  /** Without a match nothing is consumed and nothing is emitted. */
  lemma RegexNoMatch(data: seq<byte>, r: nat, find: Matcher)
    requires r <= |data| && MatcherSound(find)
    requires |data| - r <= MAX_BUFFER_BYTES
    requires find(ByteText(data[r..])).None?
    ensures RegexFrames(data, r, find) == ([], r, Waiting)
  {
  }

  /** An empty match stops decoding with nothing consumed. */
  lemma RegexEmptyMatch(data: seq<byte>, r: nat, find: Matcher)
    requires r < |data| && MatcherSound(find)
    requires |data| - r <= MAX_BUFFER_BYTES
    requires var m := find(ByteText(data[r..])); m.Some? && m.value.end <= m.value.start
    ensures RegexFrames(data, r, find) == ([], r, EmptyMatch)
  {
  }

  /**
   * A match [start, end) of the readable text: the frame is exactly the
   * matched bytes, whose text is the matched text; the bytes before it are
   * dropped and decoding carries on at the match end.
   */
  lemma RegexOneFrame(data: seq<byte>, r: nat, find: Matcher)
    requires r < |data| && MatcherSound(find)
    requires |data| - r <= MAX_BUFFER_BYTES
    requires var m := find(ByteText(data[r..])); m.Some? && m.value.start < m.value.end
    ensures var s := ByteText(data[r..]);
      var m := find(s).value;
      var rest := RegexFrames(data, r + m.end, find);
      r + m.end <= |data|
      && RegexFrames(data, r, find) == ([data[r + m.start..r + m.end]] + rest.0, rest.1, rest.2)
      && ByteText(data[r + m.start..r + m.end]) == s[m.start..m.end]
  {
    var s := ByteText(data[r..]);
    assert SpanWithin(find(s), s);
    var m := find(s).value;
    var f := data[r + m.start..r + m.end];
    assert ByteText(f) == s[m.start..m.end] by {
      forall i | 0 <= i < |f|
        ensures ByteText(f)[i] == s[m.start..m.end][i]
      {
        assert f[i] == data[r..][m.start + i];
      }
    }
  }

  /** Every frame is non-empty. */
  lemma {:induction false} RegexFramesNonEmpty(data: seq<byte>, r: nat, find: Matcher)
    requires r <= |data| && MatcherSound(find)
    ensures forall k :: 0 <= k < |RegexFrames(data, r, find).0| ==> |RegexFrames(data, r, find).0[k]| > 0
    decreases |data| - r
  {
    var t := RegexTurn(data, r, find);
    if t.Emit? {
      RegexFramesNonEmpty(data, t.next, find);
      var rest := RegexFrames(data, t.next, find).0;
      var frames := [t.frame] + rest;
      assert RegexFrames(data, r, find).0 == frames;
      forall k | 0 <= k < |frames|
        ensures |frames[k]| > 0
      {
        if k > 0 {
          assert frames[k] == rest[k - 1];
        }
      }
    }
  }

  /**
   * The buffer never grows past the ceiling: a call that stops waiting for
   * input leaves at most 256 KiB readable, and a call that overflows leaves
   * nothing readable.
   */
  lemma {:induction false} RegexFramesBounded(data: seq<byte>, r: nat, find: Matcher)
    requires r <= |data| && MatcherSound(find)
    ensures var res := RegexFrames(data, r, find);
      (res.2 == Waiting ==> |data| - res.1 <= MAX_BUFFER_BYTES)
      && (res.2 == Overflow ==> res.1 == |data|)
    decreases |data| - r
  {
    var t := RegexTurn(data, r, find);
    if t.Emit? {
      RegexFramesBounded(data, t.next, find);
    }
  }

  /** "{A}{B}" with the pattern \{[^}]+\} yields "{A}" then "{B}". */
  lemma TwoBracedFrames(data: seq<byte>)
    requires data == [0x7B, 0x41, 0x7D, 0x7B, 0x42, 0x7D]
    ensures RegexFrames(data, 0, BraceMatcher()) == ([[0x7B, 0x41, 0x7D], [0x7B, 0x42, 0x7D]], 6, Waiting)
  {
    var find := BraceMatcher();
    assert ByteText(data[0..]) == "{A}{B}";
    assert find("{A}{B}") == Some(Span(0, 3)) by {
      assert BraceMatchEnd("{A}{B}", 0) == Some(3) by {
        assert "{A}{B}"[1..] == "A}{B}";
      }
    }
    assert ByteText(data[3..]) == "{B}";
    assert find("{B}") == Some(Span(0, 3)) by {
      assert BraceMatchEnd("{B}", 0) == Some(3) by {
        assert "{B}"[1..] == "B}";
      }
    }
    assert RegexTurn(data, 3, find) == Emit(data[3..6], 6);
    assert RegexTurn(data, 0, find) == Emit(data[0..3], 3);
    assert RegexFrames(data, 6, find) == ([], 6, Waiting);
    assert RegexFrames(data, 3, find) == ([data[3..6]], 6, Waiting) by {
      assert [data[3..6]] + [] == [data[3..6]];
    }
    assert RegexFrames(data, 0, find) == ([data[0..3]] + [data[3..6]], 6, Waiting);
    assert [data[0..3]] + [data[3..6]] == [data[0..3], data[3..6]];
    assert data[0..3] == [0x7B, 0x41, 0x7D] && data[3..6] == [0x7B, 0x42, 0x7D];
  }

  /** "{A}" arriving as "{A" and then "}": nothing, then "{A}". */
  lemma BraceFrameAcrossBuffers(a: seq<byte>, b: seq<byte>)
    requires a == [0x7B, 0x41] && b == [0x7D]
    ensures RegexFrames(a, 0, BraceMatcher()) == ([], 0, Waiting)
    ensures RegexFrames(a + b, 0, BraceMatcher()) == ([[0x7B, 0x41, 0x7D]], 3, Waiting)
  {
    var find := BraceMatcher();
    assert ByteText(a[0..]) == "{A";
    assert find("{A") == None by {
      assert BraceMatchEnd("{A", 0) == None by {
        assert "{A"[1..] == "A";
        assert JavaText.IndexOfChar("A", '}') == -1;
      }
      assert BraceMatchEnd("{A", 1) == None;
    }
    assert ByteText((a + b)[0..]) == "{A}";
    assert find("{A}") == Some(Span(0, 3)) by {
      assert BraceMatchEnd("{A}", 0) == Some(3) by {
        assert "{A}"[1..] == "A}";
      }
    }
    assert RegexTurn(a + b, 0, find) == Emit((a + b)[0..3], 3);
    assert RegexFrames(a + b, 3, find) == ([], 3, Waiting);
    assert [(a + b)[0..3]] + [] == [(a + b)[0..3]];
    assert (a + b)[0..3] == [0x7B, 0x41, 0x7D];
    assert RegexTurn(a, 0, find) == Stop(Waiting, 0);
  }

  /**
   * The invariant of the decode loop: the frames emitted so far, followed
   * by what decoding from the current reader index yields, are what
   * decoding from the first reader index yields.
   */
  ghost predicate EmittedSoFar(data: seq<byte>, r0: nat, out: seq<seq<byte>>, r: nat, find: Matcher)
    requires r0 <= r <= |data| && MatcherSound(find)
  {
    var whole := RegexFrames(data, r0, find);
    var here := RegexFrames(data, r, find);
    whole == (out + here.0, here.1, here.2)
  }

  class RegexFrameDecoder {
    /** The compiled pattern, as the first-match function `find()` computes. */
    const find: Matcher

    ghost predicate Valid() {
      MatcherSound(find)
    }

    constructor (find: Matcher)
      requires MatcherSound(find)
      ensures Valid() && this.find == find
    {
      this.find := find;
    }

    /** One turn of the `decode` loop, as RegexTurn describes it. */
    method DecodeTurn(buf: ByteBuf) returns (t: RegexTurnResult)
      requires Valid() && buf.Valid()
      modifies buf`readerIndex
      ensures buf.Valid()
      ensures t == RegexTurn(buf.data, old(buf.readerIndex), find)
      ensures buf.readerIndex == (if t.Emit? then t.next else t.reader)
    {
      var readerIdx := buf.readerIndex;
      var writerIdx := |buf.data|;
      var readable := writerIdx - readerIdx;
      if readable <= 0 {
        return Stop(Waiting, readerIdx);
      }
      if readable > MAX_BUFFER_BYTES {
        buf.readerIndex := writerIdx;
        return Stop(Overflow, writerIdx);
      }
      var s := ByteText(buf.data[readerIdx..writerIdx]);
      assert buf.data[readerIdx..writerIdx] == buf.data[readerIdx..];
      var m := find(s);
      if m.None? {
        return Stop(Waiting, readerIdx);
      }
      assert SpanWithin(m, s);
      var matchStart := m.value.start;
      var matchEnd := m.value.end;
      if matchEnd <= matchStart {
        return Stop(EmptyMatch, readerIdx);
      }
      var frameAbsStart := readerIdx + matchStart;
      var frameLen := matchEnd - matchStart;
      var frame := buf.data[frameAbsStart..frameAbsStart + frameLen];
      buf.readerIndex := frameAbsStart + frameLen;
      return Emit(frame, frameAbsStart + frameLen);
    }

    /**
     * `decode`: emit every frame the pattern finds, in order. The stop
     * reason says whether the call returned to wait for input, discarded
     * the buffer and asked for the connection to be closed, or raised
     * IllegalStateException on an empty match (frames already emitted
     * by the call stay emitted).
     */
    method Decode(buf: ByteBuf) returns (out: seq<seq<byte>>, stop: RegexStop)
      requires Valid() && buf.Valid()
      modifies buf`readerIndex
      ensures buf.Valid()
      ensures (out, buf.readerIndex, stop) == RegexFrames(buf.data, old(buf.readerIndex), find)
    {
      out := [];
      ghost var data := buf.data;
      ghost var r0 := buf.readerIndex;
      assert [] + RegexFrames(data, r0, find).0 == RegexFrames(data, r0, find).0;
      while true
        invariant buf.data == data && r0 <= buf.readerIndex <= |data|
        invariant EmittedSoFar(data, r0, out, buf.readerIndex, find)
        decreases |data| - buf.readerIndex
      {
        ghost var r := buf.readerIndex;
        var t := DecodeTurn(buf);
        if t.Stop? {
          assert out + [] == out;
          return out, t.reason;
        }
        ghost var rest := RegexFrames(data, t.next, find);
        assert RegexFrames(data, r, find) == ([t.frame] + rest.0, rest.1, rest.2);
        ConcatAssoc(out, [t.frame], rest.0);
        out := out + [t.frame];
      }
    }
  }
}
