/**
 * START_END framing: a frame is the bytes strictly between a start marker
 * and the first end marker after it. Bytes before a start marker are
 * garbage and are discarded; when no start marker is present at all, only
 * the last |start| - 1 bytes are kept, since they may be the beginning of
 * a marker that is still arriving.
 */
module StartEndFrameDecoder {
  import opened Wrappers
  import opened ByteBufSearch

  /**
   * Where the reader index goes when the readable bytes `data[r..]` hold no
   * start marker: keep min(|start| - 1, readable) bytes, discard the rest.
   */
  function Resync(n: nat, r: nat, startLen: nat): (reader: nat)
    requires r <= n && startLen > 0
    ensures r <= reader <= n
    ensures n - reader == if startLen - 1 < n - r then startLen - 1 else n - r
  {
    var readable := n - r;
    var keep := if startLen - 1 < readable then startLen - 1 else readable;
    var discard := readable - keep;
    if discard > 0 then r + discard else r
  }

  /**
   * One turn of the decode loop from reader index `r`: the frame it emits,
   * if any, and the reader index it leaves. A turn that emits nothing ends
   * the loop: nothing is readable, or there is no start marker (keep what
   * Resync keeps), or there is a start marker without an end marker after
   * it (keep from the start marker on). A turn that emits moves past the
   * end marker.
   */
  function StartEndTurn(data: seq<byte>, r: nat, st: seq<byte>, en: seq<byte>): (t: (Option<seq<byte>>, nat))
    requires r <= |data| && |st| > 0 && |en| > 0
    ensures r <= t.1 <= |data|
    ensures t.0.Some? ==> r < t.1
  {
    if |data| - r <= 0 then (None, r)
    else
      var si := FirstIndexOf(data, r, |data|, st);
      if si < 0 then (None, Resync(|data|, r, |st|))
      else
        var payloadStart := si + |st|;
        var ei := FirstIndexOf(data, payloadStart, |data|, en);
        if ei < 0 then (None, si)
        else (Some(data[payloadStart..ei]), ei + |en|)
  }

  /**
   * What the decode loop produces from reader index `r`: the frames, in
   * order, and the reader index it leaves behind.
   */
  function StartEndFrames(data: seq<byte>, r: nat, st: seq<byte>, en: seq<byte>): (res: (seq<seq<byte>>, nat))
    requires r <= |data| && |st| > 0 && |en| > 0
    ensures r <= res.1 <= |data|
    decreases |data| - r
  {
    var t := StartEndTurn(data, r, st, en);
    if t.0.None? then ([], t.1)
    else
      var rest := StartEndFrames(data, t.1, st, en);
      ([t.0.value] + rest.0, rest.1)
  }

  /** A loop turn that finds no start marker. */
  lemma StartEndResyncStep(data: seq<byte>, r: nat, st: seq<byte>, en: seq<byte>)
    requires r < |data| && |st| > 0 && |en| > 0
    requires FirstIndexOf(data, r, |data|, st) < 0
    ensures StartEndFrames(data, r, st, en) == ([], Resync(|data|, r, |st|))
  {
  }

  /** A loop turn that finds a start marker at `si` but no end marker after it. */
  lemma StartEndWaitStep(data: seq<byte>, r: nat, st: seq<byte>, en: seq<byte>, si: int)
    requires r < |data| && |st| > 0 && |en| > 0
    requires si == FirstIndexOf(data, r, |data|, st) && si >= 0
    requires FirstIndexOf(data, si + |st|, |data|, en) < 0
    ensures StartEndFrames(data, r, st, en) == ([], si)
  {
  }

  /** A loop turn that finds a start marker at `si` and an end marker at `ei`. */
  lemma StartEndFrameStep(data: seq<byte>, r: nat, st: seq<byte>, en: seq<byte>, si: int, ei: int)
    requires r < |data| && |st| > 0 && |en| > 0
    requires si == FirstIndexOf(data, r, |data|, st) && si >= 0
    requires ei == FirstIndexOf(data, si + |st|, |data|, en) && ei >= 0
    ensures var rest := StartEndFrames(data, ei + |en|, st, en);
      StartEndFrames(data, r, st, en) == ([data[si + |st|..ei]] + rest.0, rest.1)
  {
    assert StartEndTurn(data, r, st, en) == (Some(data[si + |st|..ei]), ei + |en|);
  }

  /**
   * With no start marker in the readable bytes, no frame is emitted and
   * exactly the last min(|start| - 1, readable) bytes are kept.
   */
  lemma StartEndNoStart(data: seq<byte>, r: nat, st: seq<byte>, en: seq<byte>)
    requires r <= |data| && |st| > 0 && |en| > 0
    requires forall j :: r <= j ==> !OccursAt(data, j, st)
    ensures StartEndFrames(data, r, st, en).0 == []
    ensures var kept := |data| - StartEndFrames(data, r, st, en).1;
      kept == if |st| - 1 < |data| - r then |st| - 1 else |data| - r
  {
    if |data| - r > 0 {
      FirstIndexOfSpec(data, r, |data|, st);
      StartEndResyncStep(data, r, st, en);
    }
  }

  /**
   * Bytes before the first start marker are discarded, and when no end
   * marker follows it nothing is emitted and the buffer is kept from the
   * start marker on.
   */
  lemma StartEndAwaitEnd(data: seq<byte>, r: nat, st: seq<byte>, en: seq<byte>, si: nat)
    requires r <= si && |st| > 0 && |en| > 0
    requires OccursAt(data, si, st) && forall j :: r <= j < si ==> !OccursAt(data, j, st)
    requires forall j :: si + |st| <= j ==> !OccursAt(data, j, en)
    ensures StartEndFrames(data, r, st, en) == ([], si)
  {
    FirstIndexOfUnique(data, r, |data|, st, si);
    FirstIndexOfSpec(data, si + |st|, |data|, en);
    StartEndWaitStep(data, r, st, en, si);
  }

  /**
   * One complete frame: after the first start marker at `si` and the first
   * end marker at `ei` following it, the frame is the bytes strictly
   * between them and decoding carries on after the end marker.
   */
  lemma StartEndOneFrame(data: seq<byte>, r: nat, st: seq<byte>, en: seq<byte>, si: nat, ei: nat)
    requires r <= si && |st| > 0 && |en| > 0
    requires OccursAt(data, si, st) && forall j :: r <= j < si ==> !OccursAt(data, j, st)
    requires si + |st| <= ei && OccursAt(data, ei, en)
    requires forall j :: si + |st| <= j < ei ==> !OccursAt(data, j, en)
    ensures var rest := StartEndFrames(data, ei + |en|, st, en);
      StartEndFrames(data, r, st, en) == ([data[si + |st|..ei]] + rest.0, rest.1)
  {
    FirstIndexOfUnique(data, r, |data|, st, si);
    FirstIndexOfUnique(data, si + |st|, |data|, en, ei);
    StartEndFrameStep(data, r, st, en, si, ei);
  }

  /**
   * Moving the reader forward over bytes that hold no start marker changes
   * nothing, as long as the move keeps every byte the resync rule keeps.
   */
  lemma StartEndSkip(data: seq<byte>, r: nat, later: nat, st: seq<byte>, en: seq<byte>)
    requires r <= later <= |data| && |st| > 0 && |en| > 0
    requires forall j :: r <= j < later ==> !OccursAt(data, j, st)
    requires later == r || later + |st| <= |data| + 1
    ensures StartEndFrames(data, r, st, en) == StartEndFrames(data, later, st, en)
  {
    if r < later {
      FirstIndexOfSkip(data, r, later, |data|, st);
      var si := FirstIndexOf(data, r, |data|, st);
      if si < 0 {
        StartEndResyncStep(data, r, st, en);
        if later < |data| {
          StartEndResyncStep(data, later, st, en);
        }
      } else {
        var ei := FirstIndexOf(data, si + |st|, |data|, en);
        if ei < 0 {
          StartEndWaitStep(data, r, st, en, si);
          StartEndWaitStep(data, later, st, en, si);
        } else {
          StartEndFrameStep(data, r, st, en, si, ei);
          StartEndFrameStep(data, later, st, en, si, ei);
        }
      }
    }
  }

  /** No frame contains the end marker. */
  lemma {:induction false} StartEndFramesEndFree(data: seq<byte>, r: nat, st: seq<byte>, en: seq<byte>)
    requires r <= |data| && |st| > 0 && |en| > 0
    ensures FramesFree(StartEndFrames(data, r, st, en).0, en)
    decreases |data| - r
  {
    if |data| - r > 0 {
      var si := FirstIndexOf(data, r, |data|, st);
      if si < 0 {
        StartEndResyncStep(data, r, st, en);
      } else {
        var p := si + |st|;
        var ei := FirstIndexOf(data, p, |data|, en);
        if ei < 0 {
          StartEndWaitStep(data, r, st, en, si);
        } else {
          var rest := StartEndFrames(data, ei + |en|, st, en);
          assert StartEndFrames(data, r, st, en).0 == [data[p..ei]] + rest.0 by {
            StartEndFrameStep(data, r, st, en, si, ei);
          }
          assert forall j :: !OccursAt(data[p..ei], j, en) by {
            FirstIndexOfSpec(data, p, |data|, en);
            FrameFree(data, p, ei, en);
          }
          StartEndFramesEndFree(data, ei + |en|, st, en);
          ConsFree(data[p..ei], rest.0, en);
        }
      }
    }
  }

  /**
   * Delivery may be split anywhere: decoding `a`, then decoding again after
   * `b` arrives, yields the same frames and reader index as decoding
   * `a + b` at once. The bytes the resync rule discards can never begin a
   * start marker, whatever arrives later.
   */
  lemma {:induction false} StartEndFramesSplit(a: seq<byte>, b: seq<byte>, r: nat, st: seq<byte>, en: seq<byte>)
    requires r <= |a| && |st| > 0 && |en| > 0
    ensures var first := StartEndFrames(a, r, st, en);
      var second := StartEndFrames(a + b, first.1, st, en);
      StartEndFrames(a + b, r, st, en) == (first.0 + second.0, second.1)
    decreases |a| - r, 1
  {
    if |a| - r <= 0 {
      assert [] + StartEndFrames(a + b, r, st, en).0 == StartEndFrames(a + b, r, st, en).0;
    } else {
      var si := FirstIndexOf(a, r, |a|, st);
      if si < 0 {
        StartEndSplitResync(a, b, r, st, en);
      } else {
        var ei := FirstIndexOf(a, si + |st|, |a|, en);
        if ei < 0 {
          StartEndSplitWait(a, b, r, st, en, si);
        } else {
          StartEndSplitFrame(a, b, r, st, en, si, ei);
        }
      }
    }
  }

  /** StartEndFramesSplit when `a` holds no start marker. */
  lemma StartEndSplitResync(a: seq<byte>, b: seq<byte>, r: nat, st: seq<byte>, en: seq<byte>)
    requires r < |a| && |st| > 0 && |en| > 0
    requires FirstIndexOf(a, r, |a|, st) < 0
    ensures var first := StartEndFrames(a, r, st, en);
      var second := StartEndFrames(a + b, first.1, st, en);
      StartEndFrames(a + b, r, st, en) == (first.0 + second.0, second.1)
  {
    FirstIndexOfExtend(a, b, r, st);
    StartEndResyncStep(a, r, st, en);
    var later := Resync(|a|, r, |st|);
    StartEndSkip(a + b, r, later, st, en);
    assert [] + StartEndFrames(a + b, r, st, en).0 == StartEndFrames(a + b, r, st, en).0;
  }

  /** StartEndFramesSplit when `a` holds a start marker at `si` but no end after it. */
  lemma StartEndSplitWait(a: seq<byte>, b: seq<byte>, r: nat, st: seq<byte>, en: seq<byte>, si: int)
    requires r < |a| && |st| > 0 && |en| > 0
    requires si == FirstIndexOf(a, r, |a|, st) && si >= 0
    requires FirstIndexOf(a, si + |st|, |a|, en) < 0
    ensures var first := StartEndFrames(a, r, st, en);
      var second := StartEndFrames(a + b, first.1, st, en);
      StartEndFrames(a + b, r, st, en) == (first.0 + second.0, second.1)
  {
    FirstIndexOfExtend(a, b, r, st);
    FirstIndexOfSpec(a + b, r, |a + b|, st);
    StartEndWaitStep(a, r, st, en, si);
    StartEndSkip(a + b, r, si, st, en);
    assert [] + StartEndFrames(a + b, r, st, en).0 == StartEndFrames(a + b, r, st, en).0;
  }

  /** A whole frame found in `a` is found, unchanged, once more bytes arrive. */
  lemma StartEndFrameAppend(a: seq<byte>, b: seq<byte>, r: nat, st: seq<byte>, en: seq<byte>, si: int, ei: int)
    requires r < |a| && |st| > 0 && |en| > 0
    requires si == FirstIndexOf(a, r, |a|, st) && si >= 0
    requires ei == FirstIndexOf(a, si + |st|, |a|, en) && ei >= 0
    ensures var rest := StartEndFrames(a + b, ei + |en|, st, en);
      StartEndFrames(a + b, r, st, en) == ([a[si + |st|..ei]] + rest.0, rest.1)
  {
    FirstIndexOfExtend(a, b, r, st);
    FirstIndexOfExtend(a, b, si + |st|, en);
    StartEndFrameStep(a + b, r, st, en, si, ei);
    assert (a + b)[si + |st|..ei] == a[si + |st|..ei];
  }

  /** StartEndFramesSplit when `a` holds a whole frame. */
  lemma StartEndSplitFrame(a: seq<byte>, b: seq<byte>, r: nat, st: seq<byte>, en: seq<byte>, si: int, ei: int)
    requires r < |a| && |st| > 0 && |en| > 0
    requires si == FirstIndexOf(a, r, |a|, st) && si >= 0
    requires ei == FirstIndexOf(a, si + |st|, |a|, en) && ei >= 0
    ensures var first := StartEndFrames(a, r, st, en);
      var second := StartEndFrames(a + b, first.1, st, en);
      StartEndFrames(a + b, r, st, en) == (first.0 + second.0, second.1)
    decreases |a| - r, 0
  {
    var tailA := StartEndFrames(a, ei + |en|, st, en);
    var tailAB := StartEndFrames(a + b, ei + |en|, st, en);
    var second := StartEndFrames(a + b, tailA.1, st, en);
    var head := a[si + |st|..ei];
    assert tailAB == (tailA.0 + second.0, second.1) by {
      StartEndFramesSplit(a, b, ei + |en|, st, en);
    }
    assert StartEndFrames(a + b, r, st, en) == ([head] + tailAB.0, tailAB.1) by {
      StartEndFrameAppend(a, b, r, st, en, si, ei);
    }
    assert StartEndFrames(a, r, st, en) == ([head] + tailA.0, tailA.1) by {
      StartEndFrameStep(a, r, st, en, si, ei);
    }
    PrependGlue(StartEndFrames(a + b, r, st, en), StartEndFrames(a, r, st, en), tailA, tailAB, second, head);
  }

  /**
   * Encoding then decoding: start ++ payload ++ end decodes to exactly the
   * payload when the end marker does not start inside the payload.
   */
  lemma StartEndRoundTrip(st: seq<byte>, payload: seq<byte>, en: seq<byte>)
    requires |st| > 0 && |en| > 0
    requires forall j :: 0 <= j < |payload| ==> !OccursAt(payload + en, j, en)
    ensures StartEndFrames(st + payload + en, 0, st, en) == ([payload], |st| + |payload| + |en|)
  {
    var data := st + payload + en;
    var q := |st| + |payload|;
    assert StartEndFrames(data, 0, st, en) == ([data[|st|..q]], |data|) by {
      BracketedIndices(st, payload, en);
      OneFrameToEnd(data, st, en, q);
    }
    assert data[|st|..q] == payload;
  }

  /** Where the decoder finds the markers in start ++ payload ++ end, and the payload between them. */
  lemma BracketedIndices(st: seq<byte>, payload: seq<byte>, en: seq<byte>)
    requires |st| > 0 && |en| > 0
    requires forall j :: 0 <= j < |payload| ==> !OccursAt(payload + en, j, en)
    ensures var data := st + payload + en;
      && FirstIndexOf(data, 0, |data|, st) == 0
      && FirstIndexOf(data, |st|, |data|, en) == |st| + |payload|
  {
    var data := st + payload + en;
    var p := |st|;
    var q := p + |payload|;
    assert FirstIndexOf(data, 0, |data|, st) == 0 by {
      assert data[0..|st|] == st;
      FirstIndexOfUnique(data, 0, |data|, st, 0);
    }
    assert FirstIndexOf(data, p, |data|, en) == q by {
      assert data[q..|data|] == en;
      forall j | p <= j < q
        ensures !OccursAt(data, j, en)
      {
        assert OccursAt(data, j, en) == OccursAt(payload + en, j - p, en) by {
          assert data[j..j + |en|] == (payload + en)[j - p..j - p + |en|];
        }
      }
      FirstIndexOfUnique(data, p, |data|, en, q);
    }
  }

  /** A start marker at 0 and the first end marker after it closing the data: one frame, all consumed. */
  lemma OneFrameToEnd(data: seq<byte>, st: seq<byte>, en: seq<byte>, q: nat)
    requires |st| > 0 && |en| > 0 && q + |en| == |data|
    requires FirstIndexOf(data, 0, |data|, st) == 0
    requires FirstIndexOf(data, |st|, |data|, en) == q
    ensures StartEndFrames(data, 0, st, en) == ([data[|st|..q]], |data|)
  {
    var f := data[|st|..q];
    StartEndAtEnd(data, st, en);
    var rest := StartEndFrames(data, q + |en|, st, en);
    assert rest == ([], |data|);
    StartEndFrameStep(data, 0, st, en, 0, q);
    assert [f] + rest.0 == [f];
  }

  /** Nothing readable: no frame, and the reader stays at the end. */
  lemma StartEndAtEnd(data: seq<byte>, st: seq<byte>, en: seq<byte>)
    requires |st| > 0 && |en| > 0
    ensures StartEndFrames(data, |data|, st, en) == ([], |data|)
  {
    assert StartEndTurn(data, |data|, st, en) == (None, |data|);
  }

  /** "xx" STX "HI" ETX STX "OK" ETX yields "HI" then "OK". */
  lemma GarbageThenTwoFrames(data: seq<byte>)
    requires data == [0x78, 0x78, 0x02, 0x48, 0x49, 0x03, 0x02, 0x4F, 0x4B, 0x03]
    ensures StartEndFrames(data, 0, [0x02], [0x03]) == ([[0x48, 0x49], [0x4F, 0x4B]], 10)
  {
    var st: seq<byte> := [0x02];
    var en: seq<byte> := [0x03];
    var hi: seq<byte> := [0x48, 0x49];
    var ok: seq<byte> := [0x4F, 0x4B];
    assert StartEndFrames(data, 0, st, en) == ([hi] + [ok], 10) by {
      GarbageTail(data);
      OccursSingle(data, 0x02);
      OccursSingle(data, 0x03);
      FrameThen(data, 0, st, en, 2, 5, hi, ([ok], 10));
    }
    assert [hi] + [ok] == [hi, ok];
  }

  /** StartEndOneFrame with the frame and what follows it already known. */
  lemma FrameThen(data: seq<byte>, r: nat, st: seq<byte>, en: seq<byte>, si: nat, ei: nat,
                  f: seq<byte>, rest: (seq<seq<byte>>, nat))
    requires r <= si && |st| > 0 && |en| > 0
    requires OccursAt(data, si, st) && forall j :: r <= j < si ==> !OccursAt(data, j, st)
    requires si + |st| <= ei && OccursAt(data, ei, en)
    requires forall j :: si + |st| <= j < ei ==> !OccursAt(data, j, en)
    requires data[si + |st|..ei] == f && StartEndFrames(data, ei + |en|, st, en) == rest
    ensures StartEndFrames(data, r, st, en) == ([f] + rest.0, rest.1)
  {
    StartEndOneFrame(data, r, st, en, si, ei);
  }

  /** The second frame of GarbageThenTwoFrames, decoded from the reader index 6. */
  lemma GarbageTail(data: seq<byte>)
    requires data == [0x78, 0x78, 0x02, 0x48, 0x49, 0x03, 0x02, 0x4F, 0x4B, 0x03]
    ensures StartEndFrames(data, 6, [0x02], [0x03]) == ([[0x4F, 0x4B]], 10)
  {
    var st: seq<byte> := [0x02];
    var en: seq<byte> := [0x03];
    OccursSingle(data, 0x02);
    OccursSingle(data, 0x03);
    StartEndAtEnd(data, st, en);
    var rest := StartEndFrames(data, 10, st, en);
    assert rest == ([], 10);
    assert 9 + |en| == 10;
    StartEndOneFrame(data, 6, st, en, 6, 9);
    var ok: seq<byte> := [0x4F, 0x4B];
    assert data[7..9] == ok;
    assert [ok] + rest.0 == [ok];
  }

  /** STX "HEL" yields nothing and keeps the start marker; adding "LO" ETX yields "HELLO". */
  lemma FrameSplitAcrossBuffers()
    ensures StartEndFrames([0x02, 0x48, 0x45, 0x4C], 0, [0x02], [0x03]) == ([], 0)
    ensures StartEndFrames([0x02, 0x48, 0x45, 0x4C] + [0x4C, 0x4F, 0x03], 0, [0x02], [0x03])
      == ([[0x48, 0x45, 0x4C, 0x4C, 0x4F]], 7)
  {
    var a: seq<byte> := [0x02, 0x48, 0x45, 0x4C];
    var st: seq<byte> := [0x02];
    var en: seq<byte> := [0x03];
    OccursSingle(a, 0x02);
    OccursSingle(a, 0x03);
    StartEndAwaitEnd(a, 0, st, en, 0);
    var hello: seq<byte> := [0x48, 0x45, 0x4C, 0x4C, 0x4F];
    assert a + [0x4C, 0x4F, 0x03] == st + hello + en;
    OccursSingle(hello + en, 0x03);
    StartEndRoundTrip(st, hello, en);
  }

  /**
   * The invariant of the decode loop: the frames emitted so far, followed
   * by what decoding from the current reader index yields, are what
   * decoding from the first reader index yields.
   */
  ghost predicate EmittedSoFar(data: seq<byte>, r0: nat, out: seq<seq<byte>>, r: nat, st: seq<byte>, en: seq<byte>)
    requires r0 <= r <= |data| && |st| > 0 && |en| > 0
  {
    StartEndFrames(data, r0, st, en) == (out + StartEndFrames(data, r, st, en).0, StartEndFrames(data, r, st, en).1)
  }

  class StartEndFrameDecoder {
    const start: seq<byte>
    const end: seq<byte>

    ghost predicate Valid() {
      |start| > 0 && |end| > 0
    }

    constructor Init(start: seq<byte>, end: seq<byte>)
      requires |start| > 0 && |end| > 0
      ensures Valid() && this.start == start && this.end == end
    {
      this.start := start;
      this.end := end;
    }

    /** The public constructor: empty markers (Java's null included) are an IllegalArgumentException. */
    static method Create(start: seq<byte>, end: seq<byte>) returns (r: Result<StartEndFrameDecoder>)
      ensures r.Err? <==> |start| == 0 || |end| == 0
      ensures r.Err? ==> r.error == IllegalArgument
      ensures r.Ok? ==> fresh(r.value) && r.value.Valid() && r.value.start == start && r.value.end == end
    {
      if |start| == 0 || |end| == 0 {
        return Err(IllegalArgument);
      }
      var d := new StartEndFrameDecoder.Init(start, end);
      return Ok(d);
    }

    /** One turn of the `decode` loop, as StartEndTurn describes it. */
    method DecodeTurn(buf: ByteBuf) returns (frame: Option<seq<byte>>)
      requires Valid() && buf.Valid()
      modifies buf`readerIndex
      ensures buf.Valid()
      ensures (frame, buf.readerIndex) == StartEndTurn(buf.data, old(buf.readerIndex), start, end)
    {
      var readerIdx := buf.readerIndex;
      var writerIdx := |buf.data|;
      var readable := writerIdx - readerIdx;
      if readable <= 0 {
        return None;
      }
      var foundStart := IndexOf(buf, readerIdx, writerIdx, start);
      var startIdx := foundStart.value;
      if startIdx < 0 {
        var keep := if |start| - 1 < readable then |start| - 1 else readable;
        var discard := readable - keep;
        if discard > 0 {
          buf.readerIndex := readerIdx + discard;
        }
        return None;
      }
      if startIdx > readerIdx {
        buf.readerIndex := startIdx;
        readerIdx := startIdx;
      }
      var payloadStart := readerIdx + |start|;
      var foundEnd := IndexOf(buf, payloadStart, writerIdx, end);
      var endIdx := foundEnd.value;
      if endIdx < 0 {
        return None;
      }
      frame := Some(buf.data[payloadStart..endIdx]);
      buf.readerIndex := endIdx + |end|;
    }

    /**
     * `decode`: emit every complete frame, discarding garbage before start
     * markers, and leave the reader index where StartEndFrames says.
     */
    method Decode(buf: ByteBuf) returns (out: seq<seq<byte>>)
      requires Valid() && buf.Valid()
      modifies buf`readerIndex
      ensures buf.Valid()
      ensures (out, buf.readerIndex) == StartEndFrames(buf.data, old(buf.readerIndex), start, end)
    {
      out := [];
      ghost var data := buf.data;
      ghost var r0 := buf.readerIndex;
      assert [] + StartEndFrames(data, r0, start, end).0 == StartEndFrames(data, r0, start, end).0;
      while true
        invariant buf.data == data && r0 <= buf.readerIndex <= |data|
        invariant EmittedSoFar(data, r0, out, buf.readerIndex, start, end)
        decreases |data| - buf.readerIndex
      {
        ghost var r := buf.readerIndex;
        var frame := DecodeTurn(buf);
        if frame.None? {
          assert out + [] == out;
          return;
        }
        EmitOne(StartEndFrames(data, r0, start, end), out, StartEndFrames(data, r, start, end),
          frame.value, StartEndFrames(data, buf.readerIndex, start, end));
        out := out + [frame.value];
      }
    }
  }
}
