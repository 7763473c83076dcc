/**
 * `SocketFrameEncoderFactory.encodeUtf8`: the outbound framing. The
 * payload text is encoded as UTF-8 and then wrapped according to the
 * socket type: LINE_END appends the delimiter, START_END puts the parsed
 * start and end markers around it, REGEX sends it as it is.
 */
module SocketFrameEncoderFactory {
  import opened Wrappers
  import opened Config
  import opened JavaText
  import opened ByteBufSearch
  import opened HexByteSequenceParser
  import LineEndingFrameDecoder

  // ---------------------------------------------------------------------
  // UTF-8

  /** The UTF-8 bytes of one Unicode scalar value. */
  function Utf8Char(c: char): (bs: seq<byte>)
    ensures 1 <= |bs| <= 4
    ensures c as int < 0x80 <==> |bs| == 1
    ensures c as int < 0x80 ==> bs[0] as int == c as int
    ensures c as int >= 0x80 ==> forall k :: 0 <= k < |bs| ==> bs[k] >= 0x80
  {
    var cp := c as int;
    if cp < 0x80 then [cp as byte]
    else if cp < 0x800 then [(0xC0 + cp / 0x40) as byte, (0x80 + cp % 0x40) as byte]
    else if cp < 0x10000 then
      [(0xE0 + cp / 0x1000) as byte, (0x80 + cp / 0x40 % 0x40) as byte, (0x80 + cp % 0x40) as byte]
    else
      [(0xF0 + cp / 0x40000) as byte, (0x80 + cp / 0x1000 % 0x40) as byte,
       (0x80 + cp / 0x40 % 0x40) as byte, (0x80 + cp % 0x40) as byte]
  }

  /** `String.getBytes(UTF_8)`: each character's bytes, in order. */
  function Utf8(s: string): (bs: seq<byte>)
    ensures |s| <= |bs| <= 4 * |s|
  {
    if s == [] then [] else Utf8Char(s[0]) + Utf8(s[1..])
  }

  /**
   * An ASCII byte (below 0x80) lies in the UTF-8 of a text exactly where
   * the text holds that character: multi-byte sequences use only bytes
   * 0x80 and above.
   */
  lemma {:induction false} Utf8AsciiByte(s: string, x: byte)
    requires x < 0x80
    ensures (exists j :: 0 <= j < |Utf8(s)| && Utf8(s)[j] == x) <==> (exists i :: 0 <= i < |s| && s[i] as int == x as int)
  {
    if s != [] {
      Utf8AsciiByte(s[1..], x);
      var u := Utf8Char(s[0]);
      var bs := Utf8(s);
      if exists i :: 0 <= i < |s| && s[i] as int == x as int {
        var i :| 0 <= i < |s| && s[i] as int == x as int;
        if i == 0 {
          assert bs[0] == x;
        } else {
          assert s[1..][i - 1] == s[i];
          var j :| 0 <= j < |Utf8(s[1..])| && Utf8(s[1..])[j] == x;
          assert bs[|u| + j] == x;
        }
      }
      if exists j :: 0 <= j < |bs| && bs[j] == x {
        var j :| 0 <= j < |bs| && bs[j] == x;
        if j < |u| {
          assert s[0] as int == x as int;
        } else {
          assert Utf8(s[1..])[j - |u|] == x;
          var i :| 0 <= i < |s[1..]| && s[1..][i] as int == x as int;
          assert s[i + 1] as int == x as int;
        }
      }
    }
  }

  /** ASCII text is encoded one byte per character, unchanged. */
  lemma {:induction false} Utf8Ascii(s: string)
    requires forall i :: 0 <= i < |s| ==> s[i] as int < 0x80
    ensures |Utf8(s)| == |s|
    ensures forall i :: 0 <= i < |s| ==> Utf8(s)[i] as int == s[i] as int
  {
    if s != [] {
      Utf8Ascii(s[1..]);
      forall i | 1 <= i < |s|
        ensures Utf8(s)[i] as int == s[i] as int
      {
        assert Utf8(s)[i] == Utf8(s[1..])[i - 1];
        assert s[i] == s[1..][i - 1];
      }
    }
  }

  // ---------------------------------------------------------------------
  // encodeUtf8

  /** The payload between the parsed markers; a marker's parse error comes first, start before end. */
  function Bracket(start: Result<seq<byte>>, p: seq<byte>, end: Result<seq<byte>>): (r: Result<seq<byte>>)
    ensures start.Err? ==> r == start
    ensures start.Ok? && end.Err? ==> r == end
    ensures start.Ok? && end.Ok? ==> r == Ok(start.value + p + end.value)
  {
    if start.Err? then start
    else if end.Err? then end
    else Ok(start.value + p + end.value)
  }

  /** Java's `null`-or-blank test on an optional configuration string. */
  predicate BlankOrMissing(s: Option<string>) {
    s.None? || Trim(s.value) == []
  }

  /**
   * `encodeUtf8(socketType, alloc, payload)`: the framed bytes, or the
   * exception. The allocator is not modelled.
   */
  function EncodeUtf8(socketType: Option<SocketType>, payload: Option<string>): (r: Result<seq<byte>>)
  {
    if socketType.None? || socketType.value.kind.None? || payload.None? then Err(NullPointer)
    else Framed(socketType.value, Utf8(payload.value))
  }

  /** The framing the socket type's kind puts around the payload's bytes `p`. */
  function Framed(st: SocketType, p: seq<byte>): (r: Result<seq<byte>>)
    requires st.kind.Some?
  {
    match st.kind.value
    case LINE_END =>
      if st.lineEnding.None? then Err(NullPointer)
      else Ok(p + LineEndingFrameDecoder.Delimiter(st.lineEnding.value))
    case START_END =>
      if BlankOrMissing(st.startHex) || BlankOrMissing(st.endHex) then Err(IllegalArgument)
      else
        Bracket(HexSequence(st.startHex.value), p, HexSequence(st.endHex.value))
    case REGEX => Ok(p)
  }

  // ---------------------------------------------------------------------
  // Properties

  /** A missing socket type, kind or payload is a NullPointerException. */
  lemma NullArgumentsRejected(socketType: Option<SocketType>, payload: Option<string>)
    requires socketType.None? || socketType.value.kind.None? || payload.None?
    ensures EncodeUtf8(socketType, payload) == Err(NullPointer)
  {
  }

  /**
   * LINE_END: the payload's bytes followed by the delimiter, and the line
   * decoder gives back exactly the payload's bytes when the text holds no
   * CR or LF. A missing line ending is a NullPointerException.
   */
  lemma LineEndEncoding(st: SocketType, payload: string)
    requires st.kind == Some(LINE_END)
    ensures st.lineEnding.None? ==> EncodeUtf8(Some(st), Some(payload)) == Err(NullPointer)
    ensures st.lineEnding.Some? ==>
      EncodeUtf8(Some(st), Some(payload)) == Ok(Utf8(payload) + LineEndingFrameDecoder.Delimiter(st.lineEnding.value))
  {
  }

  /** Text without CR or LF round-trips through LINE_END framing, whatever the line ending. */
  lemma LineEndRoundTrip(ending: LineEnding, payload: string)
    requires forall i :: 0 <= i < |payload| ==> payload[i] != '\n' && payload[i] != '\r'
    ensures var d := LineEndingFrameDecoder.Delimiter(ending);
      var bytes := Utf8(payload) + d;
      LineEndingFrameDecoder.LineFrames(bytes, 0, d) == ([Utf8(payload)], |bytes|)
  {
    var p := Utf8(payload);
    var d := LineEndingFrameDecoder.Delimiter(ending);
    NoLineBreakBytes(payload);
    forall j | 0 <= j < |p|
      ensures !OccursAt(p + d, j, d)
    {
      assert (p + d)[j] == p[j];
    }
    LineEndingFrameDecoder.LineRoundTrip(p, d);
  }

  /** The bytes of text without CR or LF hold neither 0x0A nor 0x0D. */
  lemma NoLineBreakBytes(payload: string)
    requires forall i :: 0 <= i < |payload| ==> payload[i] != '\n' && payload[i] != '\r'
    ensures forall j :: 0 <= j < |Utf8(payload)| ==> Utf8(payload)[j] != 0x0A && Utf8(payload)[j] != 0x0D
  {
    Utf8AsciiByte(payload, 0x0A);
    Utf8AsciiByte(payload, 0x0D);
  }

  /** START_END: a missing or blank startHex or endHex is an IllegalArgumentException. */
  lemma StartEndBlankMarker(st: SocketType, payload: string)
    requires st.kind == Some(START_END) && (BlankOrMissing(st.startHex) || BlankOrMissing(st.endHex))
    ensures EncodeUtf8(Some(st), Some(payload)) == Err(IllegalArgument)
  {
  }

  /** START_END with both markers parsed: start ++ payload ++ end. */
  lemma StartEndEncoding(st: SocketType, payload: string, start: seq<byte>, end: seq<byte>)
    requires st.kind == Some(START_END) && !BlankOrMissing(st.startHex) && !BlankOrMissing(st.endHex)
    requires HexSequence(st.startHex.value) == Ok(start) && HexSequence(st.endHex.value) == Ok(end)
    ensures EncodeUtf8(Some(st), Some(payload)) == Ok(start + Utf8(payload) + end)
  {
    assert EncodeUtf8(Some(st), Some(payload)) == Bracket(Ok(start), Utf8(payload), Ok(end));
  }

  /**
   * A start marker that does not parse makes the encoding fail with the
   * parser's exception; so does an end marker that does not parse after a
   * start marker that does.
   */
  lemma StartEndBadMarker(st: SocketType, payload: string)
    requires st.kind == Some(START_END) && !BlankOrMissing(st.startHex) && !BlankOrMissing(st.endHex)
    requires HexSequence(st.startHex.value).Err? || HexSequence(st.endHex.value).Err?
    ensures EncodeUtf8(Some(st), Some(payload)) ==
      if HexSequence(st.startHex.value).Err? then HexSequence(st.startHex.value) else HexSequence(st.endHex.value)
  {
  }

  /** The parser's exceptions are IllegalArgumentException and its subclass NumberFormatException. */
  lemma StartEndMarkerErrors(st: SocketType, payload: string)
    requires st.kind == Some(START_END)
    ensures var r := EncodeUtf8(Some(st), Some(payload));
      r.Err? ==> r.error in {IllegalArgument, NumberFormat}
  {
    FramedMarkerErrors(st, Utf8(payload));
  }

  lemma FramedMarkerErrors(st: SocketType, p: seq<byte>)
    requires st.kind == Some(START_END)
    ensures var r := Framed(st, p);
      r.Err? ==> r.error in {IllegalArgument, NumberFormat}
  {
    if !BlankOrMissing(st.startHex) && !BlankOrMissing(st.endHex) {
      HexSequenceErrors(st.startHex.value);
      HexSequenceErrors(st.endHex.value);
    }
  }

  /** REGEX: the payload's bytes, unwrapped. */
  lemma RegexEncoding(st: SocketType, payload: string)
    requires st.kind == Some(REGEX)
    ensures EncodeUtf8(Some(st), Some(payload)) == Ok(Utf8(payload))
  {
  }

  /** "HELLO" with LF framing is the five letters then 0A. */
  lemma HelloWithLf(st: SocketType, payload: string)
    requires st.kind == Some(LINE_END) && st.lineEnding == Some(LF) && payload == "HELLO"
    ensures EncodeUtf8(Some(st), Some(payload)) == Ok([0x48, 0x45, 0x4C, 0x4C, 0x4F, 0x0A])
  {
    Utf8Ascii(payload);
    var u := Utf8(payload);
    assert u == [0x48, 0x45, 0x4C, 0x4C, 0x4F] by {
      assert u[0] == 0x48 && u[1] == 0x45 && u[2] == 0x4C && u[3] == 0x4C && u[4] == 0x4F;
    }
    assert LineEndingFrameDecoder.Delimiter(LF) == [0x0A];
    assert u + [0x0A] == [0x48, 0x45, 0x4C, 0x4C, 0x4F, 0x0A];
    LineEndEncoding(st, payload);
  }
}
