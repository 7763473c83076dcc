/**
 * `OutboundFrameSender`: frames a payload and writes it, applying the
 * channel's installed faults in the order delay, drop, corrupt, fragment.
 * Every random draw is an argument (`Draws`); the clock is `nowMs`; the
 * channel is reduced to its open flag and the buffers written to it.
 */
module OutboundFrameSender {
  import opened Wrappers
  import opened JavaText
  import opened Config
  import opened ByteBufSearch
  import opened HexByteSequenceParser
  import opened SocketFrameEncoderFactory
  import LineEndingFrameDecoder
  import opened EqpRuntimes
  import opened FaultStates

  function Min(a: int, b: int): int { if a < b then a else b }
  function Max(a: int, b: int): int { if a < b then b else a }

  // ---------------------------------------------------------------------
  // splitBytes

  /** Sum of a list of chunk sizes. */
  function Sum(s: seq<int>): int {
    if s == [] then 0 else Sum(s[..|s| - 1]) + s[|s| - 1]
  }

  /** The bytes of a chunk list, in order. */
  function Flatten(cs: seq<seq<byte>>): seq<byte> {
    if cs == [] then [] else Flatten(cs[..|cs| - 1]) + cs[|cs| - 1]
  }

  /** The first `k` sizes before shuffling: `base`, plus one for the first `rem` of them. */
  function BaseSizes(k: nat, base: int, rem: int): (s: seq<int>)
    ensures |s| == k
  {
    if k == 0 then [] else BaseSizes(k - 1, base, rem) + [base + (if k - 1 < rem then 1 else 0)]
  }

  function Swapped(s: seq<int>, i: nat): (r: seq<int>)
    requires i + 1 < |s|
    ensures |r| == |s|
  {
    s[i := s[i + 1]][i + 1 := s[i]]
  }

  /** The adjacent-swap pass from position `i` on; `flip(i)` is the coin drawn at `i`. */
  function ShuffleFrom(s: seq<int>, i: nat, flip: nat -> bool): (r: seq<int>)
    ensures |r| == |s|
    decreases |s| - i
  {
    if i + 1 >= |s| then s
    else ShuffleFrom(if flip(i) then Swapped(s, i) else s, i + 1, flip)
  }

  /** The chunk sizes `splitBytes` cuts a buffer of `len` bytes into. */
  function PartSizes(len: nat, parts: int, flip: nat -> bool): seq<int>
  {
    if parts <= 1 || len <= 1 then [len]
    else
      var p := Min(parts, len);
      ShuffleFrom(BaseSizes(p, len / p, len % p), 0, flip)
  }

  /**
   * `splitBytes(bytes, parts)`: the chunks have the sizes `PartSizes`
   * gives and put back together they are the input.
   */
  method SplitBytes(bytes: seq<byte>, parts: int, flip: nat -> bool) returns (chunks: seq<seq<byte>>)
    ensures |chunks| == |PartSizes(|bytes|, parts, flip)|
    ensures forall j :: 0 <= j < |chunks| ==> |chunks[j]| == PartSizes(|bytes|, parts, flip)[j]
    ensures Flatten(chunks) == bytes
  {
    var len := |bytes|;
    if parts <= 1 || len <= 1 {
      assert Flatten([bytes]) == Flatten([]) + bytes;
      return [bytes];
    }
    var p := Min(parts, len);
    var base := len / p;
    var rem := len % p;
    var sizes: seq<int> := [];
    for i := 0 to p
      invariant sizes == BaseSizes(i, base, rem)
    {
      sizes := sizes + [base + (if i < rem then 1 else 0)];
    }
    sizes := ShuffleSizes(sizes, flip);
    PartSizesShape(len, parts, flip);
    chunks := CopyChunks(bytes, sizes);
  }

  /** The adjacent-swap loop of `splitBytes`. */
  method ShuffleSizes(initial: seq<int>, flip: nat -> bool) returns (sizes: seq<int>)
    ensures sizes == ShuffleFrom(initial, 0, flip)
  {
    sizes := initial;
    if |sizes| < 2 {
      return;
    }
    for i := 0 to |initial| - 1
      invariant |sizes| == |initial|
      invariant ShuffleFrom(sizes, i, flip) == ShuffleFrom(initial, 0, flip)
    {
      if flip(i) {
        var a := sizes[i];
        var b := sizes[i + 1];
        sizes := sizes[i := b][i + 1 := a];
      }
    }
  }

  /** The copying loop of `splitBytes`: consecutive slices of the given sizes. */
  method CopyChunks(bytes: seq<byte>, sizes: seq<int>) returns (chunks: seq<seq<byte>>)
    requires forall j :: 0 <= j < |sizes| ==> sizes[j] >= 0
    requires Sum(sizes) == |bytes|
    ensures |chunks| == |sizes|
    ensures forall j :: 0 <= j < |chunks| ==> |chunks[j]| == sizes[j]
    ensures Flatten(chunks) == bytes
  {
    chunks := [];
    var pos: nat := 0;
    for k := 0 to |sizes|
      invariant |chunks| == k
      invariant pos == Sum(sizes[..k]) && pos <= |bytes|
      invariant forall j :: 0 <= j < k ==> |chunks[j]| == sizes[j]
      invariant Flatten(chunks) == bytes[..pos]
    {
      var sz := sizes[k];
      SumPrefix(sizes, k + 1);
      assert sizes[..k + 1][..k] == sizes[..k];
      assert Sum(sizes[..k + 1]) == pos + sz;
      FlattenSnoc(chunks, bytes[pos..pos + sz]);
      assert bytes[..pos] + bytes[pos..pos + sz] == bytes[..pos + sz];
      chunks := chunks + [bytes[pos..pos + sz]];
      pos := pos + sz;
    }
    assert sizes[..|sizes|] == sizes;
    assert bytes[..|bytes|] == bytes;
  }

  lemma FlattenSnoc(cs: seq<seq<byte>>, c: seq<byte>)
    ensures Flatten(cs + [c]) == Flatten(cs) + c
  {
    assert (cs + [c])[..|cs|] == cs;
  }

  /** A prefix of non-negative sizes sums to no more than the whole. */
  lemma {:induction false} SumPrefix(s: seq<int>, k: nat)
    requires k <= |s| && forall j :: 0 <= j < |s| ==> s[j] >= 0
    ensures Sum(s[..k]) <= Sum(s)
    decreases |s|
  {
    if k < |s| {
      assert s[..|s| - 1][..k] == s[..k];
      SumPrefix(s[..|s| - 1], k);
    } else {
      assert s[..k] == s;
    }
  }

  /** One swap keeps the sum. */
  lemma {:induction false} SwapSum(s: seq<int>, i: nat)
    requires i + 1 < |s|
    ensures Sum(Swapped(s, i)) == Sum(s)
    decreases |s|
  {
    var n := |s|;
    var r := Swapped(s, i);
    if i + 2 < n {
      assert r[..n - 1] == Swapped(s[..n - 1], i);
      SwapSum(s[..n - 1], i);
    } else {
      var t := s[..i];
      assert s[..n - 1] == t + [s[i]] && (t + [s[i]])[..i] == t;
      assert r[..n - 1] == t + [s[i + 1]] && (t + [s[i + 1]])[..i] == t;
    }
  }

  /** The shuffle is a permutation: it keeps the multiset of sizes and their sum. */
  lemma {:induction false} ShuffleKeeps(s: seq<int>, i: nat, flip: nat -> bool)
    ensures multiset(ShuffleFrom(s, i, flip)) == multiset(s)
    ensures Sum(ShuffleFrom(s, i, flip)) == Sum(s)
    decreases |s| - i
  {
    if i + 1 < |s| {
      var t := if flip(i) then Swapped(s, i) else s;
      if flip(i) {
        SwapSum(s, i);
        SwapMultiset(s, i);
      }
      ShuffleKeeps(t, i + 1, flip);
    }
  }

  lemma SwapMultiset(s: seq<int>, i: nat)
    requires i + 1 < |s|
    ensures multiset(Swapped(s, i)) == multiset(s)
  {
    var r := Swapped(s, i);
    assert s == s[..i] + [s[i], s[i + 1]] + s[i + 2..];
    assert r == s[..i] + [s[i + 1], s[i]] + s[i + 2..];
  }

  /** The unshuffled sizes: each is `base` or `base + 1`, and they add up to `k * base + min(k, rem)`. */
  lemma {:induction false} BaseSizesShape(k: nat, base: int, rem: int)
    requires rem >= 0
    ensures forall j :: 0 <= j < k ==> base <= BaseSizes(k, base, rem)[j] <= base + 1
    ensures Sum(BaseSizes(k, base, rem)) == k * base + Min(k, rem)
  {
    if k > 0 {
      BaseSizesShape(k - 1, base, rem);
      var s := BaseSizes(k, base, rem);
      assert s[..k - 1] == BaseSizes(k - 1, base, rem);
      assert k * base == (k - 1) * base + base;
    }
  }

  /** Integer division facts for `len / p` with `2 <= p <= len`. */
  lemma DivShape(len: nat, p: nat)
    requires 2 <= p <= len
    ensures len / p >= 1 && 0 <= len % p < p && p * (len / p) + len % p == len
  {
  }

  /**
   * What `splitBytes` promises: one chunk for `parts <= 1` or a buffer of
   * at most one byte, else `min(parts, len)` chunks; the sizes add up to
   * the length, are all positive for a non-empty buffer, and differ by at
   * most one.
   */
  lemma PartSizesShape(len: nat, parts: int, flip: nat -> bool)
    ensures var sz := PartSizes(len, parts, flip);
      && |sz| == (if parts <= 1 || len <= 1 then 1 else Min(parts, len))
      && Sum(sz) == len
      && (forall j :: 0 <= j < |sz| ==> sz[j] >= 0)
      && (len > 0 ==> forall j :: 0 <= j < |sz| ==> sz[j] > 0)
      && (forall j, k :: 0 <= j < |sz| && 0 <= k < |sz| ==> sz[j] <= sz[k] + 1)
  {
    var sz := PartSizes(len, parts, flip);
    if parts <= 1 || len <= 1 {
      assert sz == [len] && sz[..0] == [];
    } else {
      var p := Min(parts, len);
      var base := len / p;
      var rem := len % p;
      DivShape(len, p);
      var s0 := BaseSizes(p, base, rem);
      BaseSizesShape(p, base, rem);
      ShuffleKeeps(s0, 0, flip);
      forall j | 0 <= j < |sz|
        ensures base <= sz[j] <= base + 1
      {
        assert sz[j] in multiset(sz);
        assert sz[j] in multiset(s0);
        var m :| 0 <= m < |s0| && s0[m] == sz[j];
      }
    }
  }

  // ---------------------------------------------------------------------
  // computePrefixSuffix and corruptBytes

  /**
   * A bounded random draw (`nextInt(lo, hi)`, `nextLong(lo, hi)`): `choice`
   * is the value the generator returned. Only values in [lo, hi) can be
   * returned, so any other `choice` is read as `lo`.
   */
  function Draw(choice: int, lo: int, hi: int): (r: int)
    requires lo < hi
    ensures lo <= r < hi
    ensures lo <= choice < hi ==> r == choice
  {
    if lo <= choice < hi then choice else lo
  }

  /** The length of a start or end marker, as `parseHexSequence` gives it. */
  function MarkerLength(hex: Option<string>): (r: Result<nat>)
    ensures hex.None? ==> r == Err(IllegalArgument)
    ensures hex.Some? && HexSequence(hex.value).Err? ==> r == Err(HexSequence(hex.value).error)
    ensures hex.Some? && HexSequence(hex.value).Ok? ==> r == Ok(|HexSequence(hex.value).value|)
  {
    if hex.None? then Err(IllegalArgument)
    else
      var bs := HexSequence(hex.value);
      if bs.Err? then Err(bs.error) else Ok(|bs.value|)
  }

  /**
   * `computePrefixSuffix`: how many framing bytes lead and trail an
   * encoded frame. A missing kind or line ending is a NullPointerException
   * and a marker that does not parse raises the parser's exception.
   */
  function PrefixSuffix(st: SocketType): (r: Result<(nat, nat)>)
    ensures st.kind == Some(REGEX) ==> r == Ok((0, 0))
    ensures st.kind == Some(LINE_END) && st.lineEnding.Some? ==>
      r == Ok((0, if st.lineEnding.value == CRLF then 2 else 1))
    ensures st.kind == Some(START_END) ==>
      var start := MarkerLength(st.startHex);
      var end := MarkerLength(st.endHex);
      r == if start.Err? then Err(start.error) else if end.Err? then Err(end.error) else Ok((start.value, end.value))
    ensures st.kind.None? || (st.kind == Some(LINE_END) && st.lineEnding.None?) ==> r == Err(NullPointer)
  {
    match st.kind
    case None => Err(NullPointer)
    case Some(REGEX) => Ok((0, 0))
    case Some(LINE_END) =>
      (match st.lineEnding
       case None => Err(NullPointer)
       case Some(LF) => Ok((0, 1))
       case Some(CR) => Ok((0, 1))
       case Some(CRLF) => Ok((0, 2)))
    case Some(START_END) =>
      var start := MarkerLength(st.startHex);
      if start.Err? then Err(start.error)
      else
        var end := MarkerLength(st.endHex);
        if end.Err? then Err(end.error) else Ok((start.value, end.value))
  }

  /** Flips the bit of weight `m` (a power of two) in `b`. */
  function FlipBit(b: int, m: int): (r: int)
    requires m > 0
    ensures r == b + m || r == b - m
  {
    if (b / m) % 2 == 0 then b + m else b - m
  }

  /** `(byte) (b ^ 0x5A)`: bits 1, 3, 4 and 6 flipped. */
  function Xor5A(b: byte): (r: byte)
    ensures r != b
  {
    FlipBit(FlipBit(FlipBit(FlipBit(b as int, 2), 8), 16), 64) as byte
  }

  /**
   * The index range `corruptBytes` draws from: the whole buffer, or with
   * `protectFraming` the part between the framing prefix and suffix,
   * which is empty when they cover the buffer.
   */
  function CorruptRange(len: nat, protectFraming: bool, ps: (nat, nat)): (r: (nat, nat))
    ensures r.0 <= r.1 <= len
  {
    if !protectFraming then (0, len)
    else
      var from := Min(len, ps.0);
      (from, Max(from, len - ps.1))
  }

  /** The buffer after `corruptBytes` whose index draw returned `choice`. */
  function Corrupted(b: seq<byte>, from: nat, to: nat, choice: int): seq<byte>
    requires from <= to <= |b|
  {
    if to - from <= 0 then b
    else
      var idx := Draw(choice, from, to);
      b[idx := Xor5A(b[idx])]
  }

  /**
   * Corruption keeps the length, touches nothing outside [from, to), and
   * changes exactly one byte when the range is not empty (none when it
   * is); every index of the range can be the one chosen.
   */
  lemma CorruptedShape(b: seq<byte>, from: nat, to: nat, choice: int)
    requires from <= to <= |b|
    ensures var r := Corrupted(b, from, to, choice);
      && |r| == |b|
      && (forall i :: 0 <= i < |b| && (i < from || to <= i) ==> r[i] == b[i])
      && (from == to ==> r == b)
      && (from < to ==> exists idx :: from <= idx < to && r[idx] != b[idx]
                          && forall i :: 0 <= i < |b| && i != idx ==> r[i] == b[i])
      && (from <= choice < to ==> r == b[choice := Xor5A(b[choice])])
  {
    if from < to {
      var idx := Draw(choice, from, to);
      assert Corrupted(b, from, to, choice)[idx] != b[idx];
    }
  }

  /**
   * `corruptBytes(bytes, eqp, protectFraming)` in place. With
   * `protectFraming` it first computes the framing lengths, whose
   * exception leaves the buffer untouched.
   */
  method CorruptBytes(bytes: array<byte>, st: SocketType, protectFraming: bool, choice: int)
    returns (thrown: Option<Failure>)
    modifies bytes
    ensures protectFraming && PrefixSuffix(st).Err? ==>
      thrown == Some(PrefixSuffix(st).error) && bytes[..] == old(bytes[..])
    ensures !protectFraming || PrefixSuffix(st).Ok? ==> thrown.None?
    ensures thrown.None? ==>
      var ps := if protectFraming then PrefixSuffix(st).value else (0, 0);
      var range := CorruptRange(bytes.Length, protectFraming, ps);
      bytes[..] == Corrupted(old(bytes[..]), range.0, range.1, choice)
  {
    var ps := (0, 0);
    if protectFraming {
      var r := PrefixSuffix(st);
      if r.Err? {
        return Some(r.error);
      }
      ps := r.value;
    }
    var range := CorruptRange(bytes.Length, protectFraming, ps);
    var from, to := range.0, range.1;
    if to - from <= 0 {
      return None;
    }
    var idx := Draw(choice, from, to);
    bytes[idx] := Xor5A(bytes[idx]);
    return None;
  }

  /**
   * The framing lengths match the encoder: for any frame `encodeUtf8`
   * produces, `computePrefixSuffix` succeeds and the bytes between its
   * prefix and suffix are exactly the payload's.
   */
  lemma FramingLengths(st: SocketType, payload: string, e: seq<byte>)
    requires EncodeUtf8(Some(st), Some(payload)) == Ok(e)
    ensures PrefixSuffix(st).Ok?
    ensures var ps := PrefixSuffix(st).value;
      ps.0 + ps.1 <= |e| && e[ps.0..|e| - ps.1] == Utf8(payload)
  {
    var p := Utf8(payload);
    match st.kind.value
    case REGEX =>
      assert e == p;
    case LINE_END =>
      assert e == p + LineEndingFrameDecoder.Delimiter(st.lineEnding.value);
    case START_END =>
      StartEndFraming(st, p, e);
  }

  /** START_END: the framing lengths are the two markers' lengths, and they bracket the payload. */
  lemma StartEndFraming(st: SocketType, p: seq<byte>, e: seq<byte>)
    requires st.kind == Some(START_END) && st.startHex.Some? && st.endHex.Some?
    requires HexSequence(st.startHex.value).Ok? && HexSequence(st.endHex.value).Ok?
    requires e == HexSequence(st.startHex.value).value + p + HexSequence(st.endHex.value).value
    ensures PrefixSuffix(st).Ok?
    ensures var ps := PrefixSuffix(st).value;
      ps.0 + ps.1 <= |e| && e[ps.0..|e| - ps.1] == p
  {
    var start := HexSequence(st.startHex.value).value;
    var end := HexSequence(st.endHex.value).value;
    assert PrefixSuffix(st) == Ok((|start|, |end|));
    assert e[|start|..|e| - |end|] == p;
  }

  /**
   * With `protectFraming`, corrupting an encoded frame never touches its
   * framing: the prefix and suffix come out as they went in.
   */
  lemma CorruptionSparesFraming(st: SocketType, payload: string, e: seq<byte>, choice: int)
    requires EncodeUtf8(Some(st), Some(payload)) == Ok(e)
    ensures PrefixSuffix(st).Ok? && PrefixSuffix(st).value.0 + PrefixSuffix(st).value.1 <= |e|
    ensures var ps := PrefixSuffix(st).value;
      var range := CorruptRange(|e|, true, ps);
      var r := Corrupted(e, range.0, range.1, choice);
      r[..ps.0] == e[..ps.0] && r[|e| - ps.1..] == e[|e| - ps.1..]
  {
    FramingLengths(st, payload, e);
    FramingSpared(e, PrefixSuffix(st).value, choice);
  }

  /** Corruption inside the protected range leaves `ps.0` bytes in front and `ps.1` behind as they were. */
  lemma FramingSpared(e: seq<byte>, ps: (nat, nat), choice: int)
    requires ps.0 + ps.1 <= |e|
    ensures var range := CorruptRange(|e|, true, ps);
      var r := Corrupted(e, range.0, range.1, choice);
      r[..ps.0] == e[..ps.0] && r[|e| - ps.1..] == e[|e| - ps.1..]
  {
    var range := CorruptRange(|e|, true, ps);
    assert range == (ps.0, |e| - ps.1);
    CorruptedOutside(e, range.0, range.1, choice);
  }

  /** The slices before and after the range come out of corruption unchanged. */
  lemma CorruptedOutside(b: seq<byte>, from: nat, to: nat, choice: int)
    requires from <= to <= |b|
    ensures var r := Corrupted(b, from, to, choice);
      |r| == |b| && r[..from] == b[..from] && r[to..] == b[to..]
  {
    CorruptedShape(b, from, to, choice);
    var r := Corrupted(b, from, to, choice);
    assert forall i :: 0 <= i < from ==> r[..from][i] == b[..from][i];
    assert forall i :: 0 <= i < |b| - to ==> r[to..][i] == b[to..][i];
  }

  // ---------------------------------------------------------------------
  // send and sendNow

  /** The part of a channel the sender sees: whether it is open, the buffers written and the flushes. */
  class Channel {
    var active: bool
    var writes: seq<seq<byte>>
    var flushes: nat

    constructor(active: bool)
      ensures this.active == active && writes == [] && flushes == 0
    {
      this.active := active;
      writes := [];
      flushes := 0;
    }
  }

  /**
   * The random draws one send may make: the jitter added to a delay, the
   * outcome of the drop and corrupt rate tests (`nextDouble() < rate`),
   * the byte index to corrupt, the number of parts and the coin of each
   * adjacent swap.
   */
  datatype Draws = Draws(jitter: int, dropHit: bool, corruptHit: bool, corruptIndex: int,
                         parts: int, flip: nat -> bool)

  /** What a fault stage sees of its scope: whether it is active, whether it counts uses, the uses left. */
  datatype StageView = StageView(active: bool, counted: bool, left: int)

  function ViewOf(s: Option<Scope>, nowMs: int): (v: StageView)
    reads Counter(s)
  {
    StageView(IsActive(s, nowMs), s.Some? && s.value.ByNext?, if s.Some? && s.value.ByNext? then s.value.next.remaining else 0)
  }

  /** A stage that ran: an active NEXT scope gave up one use. */
  predicate Used(before: StageView, after: StageView) {
    && after.counted == before.counted
    && after.left == before.left - (if before.active && before.counted then 1 else 0)
  }

  /** What the sender sees of the channel. */
  datatype ChannelView = ChannelView(active: bool, writes: seq<seq<byte>>, flushes: nat)

  function ChannelOf(ch: Channel): ChannelView
    reads ch
  {
    ChannelView(ch.active, ch.writes, ch.flushes)
  }

  /** The channel and the three post-delay stages, as `sendNow` sees them. */
  datatype Snapshot = Snapshot(channel: ChannelView, drop: StageView, corrupt: StageView, fragment: StageView)

  function Snap(ch: Channel, fs: FaultState, nowMs: int): Snapshot
    reads ch, fs, fs.Counters()
  {
    Snapshot(ChannelOf(ch), ViewOf(fs.DropScope(), nowMs), ViewOf(fs.CorruptScope(), nowMs),
             ViewOf(fs.FragmentScope(), nowMs))
  }

  /** The counters `sendNow` may use: those of the drop, corrupt and fragment effects. */
  function StageCounters(fs: FaultState): set<NextPolicy>
    reads fs
  {
    Counter(fs.DropScope()) + Counter(fs.CorruptScope()) + Counter(fs.FragmentScope())
  }

  /**
   * One fault stage's test: `isActive(effect)`, then for a NEXT scope
   * `tryConsumeOne()`. The stage fires exactly when the scope was active,
   * since an active counter has a use to give.
   */
  method RunStage(s: Option<Scope>, nowMs: int) returns (fires: bool)
    modifies Counter(s)
    ensures fires == old(IsActive(s, nowMs))
    ensures Used(old(ViewOf(s, nowMs)), ViewOf(s, nowMs))
  {
    if !IsActive(s, nowMs) {
      return false;
    }
    match s.value
    case ByDuration(_) =>
      fires := true;
    case ByNext(next) =>
      fires := next.TryConsumeOne();
  }

  /** One write and flush when the channel is open, else nothing. */
  predicate WrittenOnce(before: ChannelView, after: ChannelView, bytes: seq<byte>) {
    && after.active == before.active
    && after.writes == (if before.active then before.writes + [bytes] else before.writes)
    && after.flushes == (if before.active then before.flushes + 1 else before.flushes)
  }

  /** `writeBytes`: one write and flush, when the channel is still open. */
  method WriteBytes(ch: Channel, bytes: seq<byte>)
    modifies ch
    ensures WrittenOnce(old(ChannelOf(ch)), ChannelOf(ch), bytes)
  {
    if !ch.active {
      return;
    }
    ch.writes := ch.writes + [bytes];
    ch.flushes := ch.flushes + 1;
  }

  /** The fragment stage's loop: each chunk written in order, then one flush. */
  method WriteChunks(ch: Channel, chunks: seq<seq<byte>>)
    modifies ch
    ensures ch.active == old(ch.active)
    ensures ch.writes == old(ch.writes) + chunks
    ensures ch.flushes == old(ch.flushes) + 1
  {
    for i := 0 to |chunks|
      invariant ch.active == old(ch.active) && ch.flushes == old(ch.flushes)
      invariant ch.writes == old(ch.writes) + chunks[..i]
    {
      assert chunks[..i + 1] == chunks[..i] + [chunks[i]];
      ch.writes := ch.writes + [chunks[i]];
    }
    assert chunks[..|chunks|] == chunks;
    ch.flushes := ch.flushes + 1;
  }

  /** The exclusive bound `maxParts + 1` of the parts draw, in 32-bit arithmetic. */
  function PartsBound(maxParts: int): int {
    if maxParts == INT_MAX then INT_MIN else maxParts + 1
  }

  /**
   * What the fragment stage writes: `min(parts, len)` chunks in order
   * (PartSizesShape) that put back together are the frame.
   */
  predicate ChunkedAs(cs: seq<seq<byte>>, frame: seq<byte>, parts: int, flip: nat -> bool) {
    && |cs| == |PartSizes(|frame|, parts, flip)|
    && (forall j :: 0 <= j < |cs| ==> |cs[j]| == PartSizes(|frame|, parts, flip)[j])
    && Flatten(cs) == frame
  }

  /**
   * The fragment stage and the final write: when the stage fires, the
   * chunks are written in order and flushed once (a parts range that
   * `nextInt` rejects raises IllegalArgumentException first); otherwise
   * the frame goes out in a single write.
   */
  predicate FragmentEffect(before: ChannelView, after: ChannelView, fb: StageView, fa: StageView,
                           fragment: Option<Fragment>, frame: seq<byte>, draws: Draws, thrown: Option<Failure>)
  {
    && Used(fb, fa)
    && if !fb.active || fragment.None? then thrown.None? && WrittenOnce(before, after, frame)
       else
         var f := fragment.value;
         var bound := PartsBound(f.maxParts);
         if f.minParts >= bound then thrown == Some(IllegalArgument) && after == before
         else
           && thrown.None? && after.active == before.active && after.flushes == before.flushes + 1
           && |before.writes| <= |after.writes| && after.writes[..|before.writes|] == before.writes
           && ChunkedAs(after.writes[|before.writes|..], frame, Draw(draws.parts, f.minParts, bound), draws.flip)
  }

  method FragmentStage(ch: Channel, fs: FaultState, bytes: seq<byte>, nowMs: int, draws: Draws)
    returns (thrown: Option<Failure>)
    modifies ch, Counter(fs.FragmentScope())
    ensures FragmentEffect(old(ChannelOf(ch)), ChannelOf(ch), old(ViewOf(fs.FragmentScope(), nowMs)),
                           ViewOf(fs.FragmentScope(), nowMs), fs.fragment, bytes, draws, thrown)
  {
    var fires := RunStage(fs.FragmentScope(), nowMs);
    if fires {
      var f := fs.fragment.value;
      var bound := PartsBound(f.maxParts);
      if f.minParts >= bound {
        return Some(IllegalArgument);
      }
      var parts := Draw(draws.parts, f.minParts, bound);
      var chunks := SplitBytes(bytes, parts, draws.flip);
      WriteChunks(ch, chunks);
      assert ch.writes[|old(ch.writes)|..] == chunks;
      return None;
    }
    WriteBytes(ch, bytes);
    return None;
  }

  /**
   * The corrupt stage's result, the exception and the frame: it fires when
   * its scope is active and the rate test hits; `corruptBytes` then flips
   * one byte of the frame, or raises the framing computation's exception.
   */
  function CorruptOutcome(active: bool, protect: bool, st: SocketType, frame: seq<byte>, hit: bool, index: int)
    : (Option<Failure>, seq<byte>)
  {
    if !(active && hit) then (None, frame)
    else if protect && PrefixSuffix(st).Err? then (Some(PrefixSuffix(st).error), frame)
    else
      var range := CorruptRange(|frame|, protect, if protect then PrefixSuffix(st).value else (0, 0));
      (None, Corrupted(frame, range.0, range.1, index))
  }

  function Protects(fs: FaultState): bool
    reads fs
  {
    fs.corrupt.Some? && fs.corrupt.value.protectFraming
  }

  method CorruptStage(st: SocketType, fs: FaultState, bytes: array<byte>, nowMs: int, draws: Draws)
    returns (thrown: Option<Failure>)
    modifies bytes, Counter(fs.CorruptScope())
    ensures Used(old(ViewOf(fs.CorruptScope(), nowMs)), ViewOf(fs.CorruptScope(), nowMs))
    ensures (thrown, bytes[..]) ==
      CorruptOutcome(old(IsActive(fs.CorruptScope(), nowMs)), Protects(fs), st, old(bytes[..]), draws.corruptHit, draws.corruptIndex)
  {
    var fires := RunStage(fs.CorruptScope(), nowMs);
    if fires && draws.corruptHit {
      thrown := CorruptBytes(bytes, st, fs.corrupt.value.protectFraming, draws.corruptIndex);
    } else {
      thrown := None;
    }
  }

  /**
   * The stages after a drop that did not happen: corrupt, then fragment
   * or a single write; an exception from the corrupt stage stops there.
   * The drop counter is not touched.
   */
  predicate AfterDropEffect(b: Snapshot, a: Snapshot, fragment: Option<Fragment>, protect: bool, st: SocketType,
                            frame: seq<byte>, after: seq<byte>, draws: Draws, thrown: Option<Failure>)
  {
    && a.drop == b.drop && Used(b.corrupt, a.corrupt)
    && var (ct, mid) := CorruptOutcome(b.corrupt.active, protect, st, frame, draws.corruptHit, draws.corruptIndex);
       && after == mid
       && if ct.Some? then thrown == ct && a.channel == b.channel && a.fragment == b.fragment
          else FragmentEffect(b.channel, a.channel, b.fragment, a.fragment, fragment, mid, draws, thrown)
  }

  /** The corrupt stage seen on the whole snapshot: only the corrupt counter and the frame change. */
  method CorruptPart(ch: Channel, st: SocketType, fs: FaultState, bytes: array<byte>, nowMs: int, draws: Draws)
    returns (thrown: Option<Failure>)
    requires fs.Valid()
    modifies bytes, Counter(fs.CorruptScope())
    ensures var b := old(Snap(ch, fs, nowMs));
      && Snap(ch, fs, nowMs) == b.(corrupt := ViewOf(fs.CorruptScope(), nowMs)) && Used(b.corrupt, ViewOf(fs.CorruptScope(), nowMs))
      && (thrown, bytes[..]) == CorruptOutcome(b.corrupt.active, Protects(fs), st, old(bytes[..]), draws.corruptHit, draws.corruptIndex)
  {
    ghost var b := Snap(ch, fs, nowMs);
    thrown := CorruptStage(st, fs, bytes, nowMs, draws);
    assert ViewOf(fs.DropScope(), nowMs) == b.drop;
    assert ViewOf(fs.FragmentScope(), nowMs) == b.fragment;
  }

  /** The fragment stage seen on the whole snapshot: the drop and corrupt counters stay. */
  method FragmentPart(ch: Channel, fs: FaultState, bytes: seq<byte>, nowMs: int, draws: Draws)
    returns (thrown: Option<Failure>)
    requires fs.Valid()
    modifies ch, Counter(fs.FragmentScope())
    ensures var b := old(Snap(ch, fs, nowMs)); var a := Snap(ch, fs, nowMs);
      && a.drop == b.drop && a.corrupt == b.corrupt
      && FragmentEffect(b.channel, a.channel, b.fragment, a.fragment, fs.fragment, bytes, draws, thrown)
  {
    ghost var b := Snap(ch, fs, nowMs);
    thrown := FragmentStage(ch, fs, bytes, nowMs, draws);
    assert ViewOf(fs.DropScope(), nowMs) == b.drop;
    assert ViewOf(fs.CorruptScope(), nowMs) == b.corrupt;
  }

  method AfterDrop(ch: Channel, st: SocketType, fs: FaultState, bytes: array<byte>, nowMs: int, draws: Draws)
    returns (thrown: Option<Failure>)
    requires fs.Valid()
    modifies ch, bytes, Counter(fs.CorruptScope()), Counter(fs.FragmentScope())
    ensures AfterDropEffect(old(Snap(ch, fs, nowMs)), Snap(ch, fs, nowMs), fs.fragment, Protects(fs), st,
                            old(bytes[..]), bytes[..], draws, thrown)
  {
    thrown := CorruptPart(ch, st, fs, bytes, nowMs, draws);
    if thrown.Some? {
      return;
    }
    thrown := FragmentPart(ch, fs, bytes[..], nowMs, draws);
  }

  /**
   * What `sendNow` does, stage by stage: nothing on a closed channel; a
   * dropped frame writes nothing and leaves the corrupt and fragment
   * counters alone; otherwise the later stages run.
   */
  predicate NowEffect(b: Snapshot, a: Snapshot, fragment: Option<Fragment>, protect: bool, st: SocketType,
                      frame: seq<byte>, after: seq<byte>, draws: Draws, thrown: Option<Failure>)
  {
    if !b.channel.active then thrown.None? && a == b && after == frame
    else if b.drop.active && draws.dropHit then
      && thrown.None? && after == frame && Used(b.drop, a.drop)
      && a.channel == b.channel && a.corrupt == b.corrupt && a.fragment == b.fragment
    else
      && Used(b.drop, a.drop)
      && AfterDropEffect(b.(drop := a.drop), a, fragment, protect, st, frame, after, draws, thrown)
  }

  /** `sendNow`: the stages after the delay, on the frame buffer `bytes`. */
  method SendNow(ch: Channel, st: SocketType, fs: FaultState, bytes: array<byte>, nowMs: int, draws: Draws)
    returns (thrown: Option<Failure>)
    requires fs.Valid()
    modifies ch, bytes, StageCounters(fs)
    ensures NowEffect(old(Snap(ch, fs, nowMs)), Snap(ch, fs, nowMs), fs.fragment, Protects(fs), st,
                      old(bytes[..]), bytes[..], draws, thrown)
  {
    if !ch.active {
      return None;
    }
    ghost var b := Snap(ch, fs, nowMs);
    var dropFires := RunStage(fs.DropScope(), nowMs);
    assert ViewOf(fs.CorruptScope(), nowMs) == b.corrupt && ViewOf(fs.FragmentScope(), nowMs) == b.fragment;
    if dropFires && draws.dropHit {
      return None;
    }
    ghost var m := Snap(ch, fs, nowMs);
    assert m == b.(drop := m.drop);
    thrown := AfterDrop(ch, st, fs, bytes, nowMs, draws);
  }

  /**
   * The delay a scheduled frame waits: `delayMs`, plus a draw in
   * `[0, jitterMs]` when the jitter is positive, in 64-bit arithmetic. A
   * jitter of Long.MAX_VALUE makes the exclusive bound wrap, and the draw
   * throws.
   */
  function DelayOf(delayMs: int, jitterMs: int, choice: int): (r: Result<int>)
    ensures jitterMs <= 0 ==> r == Ok(delayMs)
    ensures r.Err? <==> jitterMs == LONG_MAX
    ensures r.Err? ==> r.error == IllegalArgument
    ensures 0 < jitterMs < LONG_MAX && LONG_MIN <= delayMs && delayMs + jitterMs <= LONG_MAX ==>
      r.Ok? && delayMs <= r.value <= delayMs + jitterMs
    ensures 0 < jitterMs < LONG_MAX && LONG_MIN <= delayMs && delayMs + jitterMs <= LONG_MAX && 0 <= choice <= jitterMs ==>
      r == Ok(delayMs + choice)
  {
    if jitterMs <= 0 then Ok(delayMs)
    else if jitterMs == LONG_MAX then Err(IllegalArgument)
    else Ok(Wrap64(delayMs + Draw(choice, 0, jitterMs + 1)))
  }

  /**
   * What `send` did: nothing (a null argument or a closed channel), the
   * encoder threw, a plain write (no fault state), the frame was scheduled
   * for `sendNow` after a delay, or `sendNow` ran at once and left `frame`
   * (possibly corrupted) behind.
   */
  datatype SendOutcome =
    | Ignored
    | Failed(error: Failure)
    | Plain
    | Scheduled(delayMs: int, frame: seq<byte>)
    | Sent(frame: seq<byte>, thrown: Option<Failure>)

  /** The counters `send` may use. */
  function SendCounters(fs: Option<FaultState>): set<NextPolicy>
    reads if fs.Some? then {fs.value} else {}
  {
    if fs.Some? then fs.value.Counters() else {}
  }

  /**
   * `send(ctx, eqp, payload)`: frame the payload for the EQP's socket type,
   * then apply the installed faults in the order delay, drop, corrupt,
   * fragment. An active delay uses its scope and hands the frame, unsent,
   * to the scheduler; a frame that is not delayed goes through `sendNow`
   * at once, so delayed and undelayed frames meet the same later stages.
   */
  method Send(ch: Channel, eqp: Option<EqpRuntime>, payload: Option<string>, fs: Option<FaultState>,
              nowMs: int, draws: Draws) returns (outcome: SendOutcome)
    requires fs.Some? ==> fs.value.Valid()
    modifies ch, SendCounters(fs)
    ensures outcome.Ignored? <==> eqp.None? || payload.None? || !old(ch.active)
    ensures outcome.Ignored? || outcome.Failed? || outcome.Scheduled? ==> ChannelOf(ch) == old(ChannelOf(ch))
    ensures !outcome.Ignored? ==>
      var enc := EncodeUtf8(Some(eqp.value.socketType), payload);
      && (enc.Err? ==> outcome == Failed(enc.error))
      && (enc.Ok? && fs.None? ==> outcome == Plain && WrittenOnce(old(ChannelOf(ch)), ChannelOf(ch), enc.value))
      && (enc.Ok? && fs.Some? ==>
            DelayEffect(old(Snap(ch, fs.value, nowMs)), Snap(ch, fs.value, nowMs),
                        old(ViewOf(fs.value.DelayScope(), nowMs)), ViewOf(fs.value.DelayScope(), nowMs),
                        fs.value, eqp.value.socketType, enc.value, draws, outcome))
    ensures fs.Some? && (outcome.Ignored? || EncodeUtf8(Some(eqp.value.socketType), payload).Err?) ==>
      ViewOf(fs.value.DelayScope(), nowMs) == old(ViewOf(fs.value.DelayScope(), nowMs))
  {
    if eqp.None? || payload.None? || !ch.active {
      return Ignored;
    }
    var st := eqp.value.socketType;
    var enc := EncodeUtf8(Some(st), payload);
    if enc.Err? {
      return Failed(enc.error);
    }
    var e := enc.value;
    if fs.None? {
      WriteBytes(ch, e);
      return Plain;
    }
    var f := fs.value;
    outcome := SendFaulted(ch, st, f, e, nowMs, draws);
  }

  /**
   * The delay stage and what follows it. An active delay uses its scope;
   * then the jitter draw either throws or the frame is scheduled, and
   * nothing else changes. An inactive delay hands the frame to `sendNow`
   * at once.
   */
  predicate DelayEffect(b: Snapshot, a: Snapshot, db: StageView, da: StageView, fs: FaultState,
                        st: SocketType, e: seq<byte>, draws: Draws, outcome: SendOutcome)
    reads fs
  {
    && Used(db, da)
    && if db.active then
         && fs.delay.Some?
         && a == b
         && outcome == (if fs.delay.value.jitterMs == LONG_MAX then Failed(IllegalArgument)
                        else Scheduled(DelayOf(fs.delay.value.delayMs, fs.delay.value.jitterMs, draws.jitter).value, e))
       else
         && outcome.Sent?
         && NowEffect(b, a, fs.fragment, Protects(fs), st, e, outcome.frame, draws, outcome.thrown)
  }

  /** `send` once the frame is encoded and a fault state is installed. */
  method SendFaulted(ch: Channel, st: SocketType, fs: FaultState, e: seq<byte>, nowMs: int, draws: Draws)
    returns (outcome: SendOutcome)
    requires fs.Valid()
    modifies ch, fs.Counters()
    ensures DelayEffect(old(Snap(ch, fs, nowMs)), Snap(ch, fs, nowMs),
                        old(ViewOf(fs.DelayScope(), nowMs)), ViewOf(fs.DelayScope(), nowMs),
                        fs, st, e, draws, outcome)
  {
    var fires := DelayStage(ch, fs, nowMs);
    if fires {
      var d := fs.delay.value;
      if d.jitterMs == LONG_MAX {
        return Failed(IllegalArgument);
      }
      return Scheduled(DelayOf(d.delayMs, d.jitterMs, draws.jitter).value, e);
    }
    var frame, thrown := SendUndelayed(ch, st, fs, e, nowMs, draws);
    return Sent(frame, thrown);
  }

  /** The delay stage's test: only the delay counter changes. */
  method DelayStage(ch: Channel, fs: FaultState, nowMs: int) returns (fires: bool)
    requires fs.Valid()
    modifies Counter(fs.DelayScope())
    ensures fires == old(IsActive(fs.DelayScope(), nowMs))
    ensures fires ==> fs.delay.Some?
    ensures Used(old(ViewOf(fs.DelayScope(), nowMs)), ViewOf(fs.DelayScope(), nowMs))
    ensures Snap(ch, fs, nowMs) == old(Snap(ch, fs, nowMs))
  {
    ghost var b := Snap(ch, fs, nowMs);
    fires := RunStage(fs.DelayScope(), nowMs);
    assert ViewOf(fs.DropScope(), nowMs) == b.drop;
    assert ViewOf(fs.CorruptScope(), nowMs) == b.corrupt;
    assert ViewOf(fs.FragmentScope(), nowMs) == b.fragment;
  }

  /** `sendNow` on a fresh copy of the encoded frame; the delay counter stays. */
  method SendUndelayed(ch: Channel, st: SocketType, fs: FaultState, e: seq<byte>, nowMs: int, draws: Draws)
    returns (frame: seq<byte>, thrown: Option<Failure>)
    requires fs.Valid()
    modifies ch, StageCounters(fs)
    ensures ViewOf(fs.DelayScope(), nowMs) == old(ViewOf(fs.DelayScope(), nowMs))
    ensures NowEffect(old(Snap(ch, fs, nowMs)), Snap(ch, fs, nowMs), fs.fragment, Protects(fs), st, e, frame, draws, thrown)
  {
    ghost var db := ViewOf(fs.DelayScope(), nowMs);
    var bytes := new byte[|e|](i requires 0 <= i < |e| => e[i]);
    assert bytes[..] == e;
    thrown := SendNow(ch, st, fs, bytes, nowMs, draws);
    frame := bytes[..];
    assert ViewOf(fs.DelayScope(), nowMs) == db;
  }

  // ---------------------------------------------------------------------
  // What reaches the channel

  /**
   * A frame that `sendNow` neither dropped nor failed on reaches the
   * channel whole: the buffers written, put back together, are the frame
   * as the corrupt stage left it, which has the length of the encoded
   * frame and differs from it in at most one byte.
   */
  lemma {:induction false} DeliveredWhole(b: Snapshot, a: Snapshot, fragment: Option<Fragment>, protect: bool,
                                          st: SocketType, frame: seq<byte>, after: seq<byte>, draws: Draws,
                                          thrown: Option<Failure>)
    requires NowEffect(b, a, fragment, protect, st, frame, after, draws, thrown)
    requires b.channel.active && thrown.None? && !(b.drop.active && draws.dropHit)
    ensures |b.channel.writes| <= |a.channel.writes|
    ensures Flatten(a.channel.writes[|b.channel.writes|..]) == after
    ensures |after| == |frame|
    ensures forall i, j :: 0 <= i < j < |frame| && after[i] != frame[i] ==> after[j] == frame[j]
  {
    var b2 := b.(drop := a.drop);
    var (ct, mid) := CorruptOutcome(b2.corrupt.active, protect, st, frame, draws.corruptHit, draws.corruptIndex);
    assert after == mid && ct.None?;
    CorruptOutcomeShape(b2.corrupt.active, protect, st, frame, draws.corruptHit, draws.corruptIndex);
    var before := b.channel.writes;
    if !b2.fragment.active || fragment.None? {
      assert a.channel.writes == before + [after];
      assert a.channel.writes[|before|..] == [after];
      assert Flatten([after]) == Flatten([]) + after;
    }
  }

  /** The corrupt stage keeps the length and changes at most one byte. */
  lemma CorruptOutcomeShape(active: bool, protect: bool, st: SocketType, frame: seq<byte>, hit: bool, index: int)
    ensures var r := CorruptOutcome(active, protect, st, frame, hit, index).1;
      && |r| == |frame|
      && forall i, j :: 0 <= i < j < |frame| && r[i] != frame[i] ==> r[j] == frame[j]
  {
    if active && hit && !(protect && PrefixSuffix(st).Err?) {
      var range := CorruptRange(|frame|, protect, if protect then PrefixSuffix(st).value else (0, 0));
      CorruptedShape(frame, range.0, range.1, index);
    }
  }

  /**
   * With `protectFraming`, the frame `sendNow` leaves behind keeps the
   * encoded prefix and suffix whatever the corrupt stage drew.
   */
  lemma ProtectedFramingKept(b: Snapshot, a: Snapshot, fragment: Option<Fragment>, st: SocketType, payload: string,
                             e: seq<byte>, after: seq<byte>, draws: Draws, thrown: Option<Failure>)
    requires EncodeUtf8(Some(st), Some(payload)) == Ok(e)
    requires NowEffect(b, a, fragment, true, st, e, after, draws, thrown)
    ensures PrefixSuffix(st).Ok?
    ensures var ps := PrefixSuffix(st).value;
      ps.0 + ps.1 <= |e| && |after| == |e| && after[..ps.0] == e[..ps.0] && after[|e| - ps.1..] == e[|e| - ps.1..]
  {
    CorruptionSparesFraming(st, payload, e, draws.corruptIndex);
    CorruptOutcomeShape(b.corrupt.active, true, st, e, draws.corruptHit, draws.corruptIndex);
  }
}
