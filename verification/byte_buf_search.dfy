/**
 * The slice of Netty's ByteBuf the decoders use, and the multi-byte
 * sequence search `ByteBufSearch.indexOf`.
 *
 * A buffer is modelled by its written bytes `data` (the writer index is
 * `|data|`) and a `readerIndex`; the readable region is
 * `data[readerIndex..]`. Indices are absolute, as in Netty.
 */
module ByteBufSearch {
  import opened Wrappers

  newtype byte = x: int | 0 <= x < 256

  class ByteBuf {
    var data: seq<byte>
    var readerIndex: nat

    ghost predicate Valid()
      reads this
    {
      readerIndex <= |data|
    }

    function Readable(): seq<byte>
      reads this
      requires Valid()
    {
      data[readerIndex..]
    }

    constructor (bytes: seq<byte>)
      ensures Valid() && data == bytes && readerIndex == 0
    {
      data := bytes;
      readerIndex := 0;
    }

    /** Bytes arriving from the socket are appended after the writer index. */
    method WriteBytes(bytes: seq<byte>)
      requires Valid()
      modifies this`data
      ensures Valid()
      ensures data == old(data) + bytes
    {
      data := data + bytes;
    }
  }

  /** `s` occurs in `data` starting at absolute index `i`. */
  predicate OccursAt(data: seq<byte>, i: int, s: seq<byte>) {
    0 <= i && i + |s| <= |data| && data[i..i + |s|] == s
  }

  lemma ConcatAssoc<T>(x: seq<T>, y: seq<T>, z: seq<T>)
    ensures x + (y + z) == (x + y) + z
  {
  }

  /**
   * The bookkeeping of a decode loop that emits one frame: if the whole
   * output is `out` followed by what decoding from here yields, and that is
   * `frame` followed by what decoding from the next position yields, then
   * the whole output is `out + [frame]` followed by the latter.
   */
  lemma EmitOne<F>(whole: (seq<F>, nat), out: seq<F>, here: (seq<F>, nat), frame: F, next: (seq<F>, nat))
    requires whole == (out + here.0, here.1)
    requires here == ([frame] + next.0, next.1)
    ensures whole == ((out + [frame]) + next.0, next.1)
  {
    ConcatAssoc(out, [frame], next.0);
  }

  /** Frame lists: one frame in front of a split continuation is a split of the whole. */
  lemma PrependGlue(whole: (seq<seq<byte>>, nat), first: (seq<seq<byte>>, nat), tailA: (seq<seq<byte>>, nat),
                    tailAB: (seq<seq<byte>>, nat), second: (seq<seq<byte>>, nat), head: seq<byte>)
    requires first == ([head] + tailA.0, tailA.1)
    requires whole == ([head] + tailAB.0, tailAB.1)
    requires tailAB == (tailA.0 + second.0, second.1)
    ensures whole == (first.0 + second.0, second.1)
  {
    ConcatAssoc([head], tailA.0, second.0);
  }

  /** A slice of a slice is a slice of the original. */
  lemma SliceOfSlice<T>(data: seq<T>, p: nat, e: nat, j: nat, n: nat)
    requires p <= e <= |data| && j + n <= e - p
    ensures data[p..e][j..j + n] == data[p + j..p + j + n]
  {
    var x := data[p..e][j..j + n];
    var y := data[p + j..p + j + n];
    forall k | 0 <= k < n
      ensures x[k] == y[k]
    {
      assert x[k] == data[p..e][j + k] == data[p + j + k];
    }
  }

  /** A one-byte sequence occurs exactly where that byte is. */
  lemma OccursSingle(data: seq<byte>, x: byte)
    ensures forall j :: OccursAt(data, j, [x]) <==> 0 <= j < |data| && data[j] == x
  {
    forall j | 0 <= j < |data|
      ensures OccursAt(data, j, [x]) <==> data[j] == x
    {
      assert data[j..j + 1] == [data[j]];
    }
  }

  /** No frame in `frames` contains `s`. */
  ghost predicate FramesFree(frames: seq<seq<byte>>, s: seq<byte>) {
    forall k, j :: 0 <= k < |frames| ==> !OccursAt(frames[k], j, s)
  }

  /** Putting a frame without `s` in front of frames without `s`. */
  lemma ConsFree(f: seq<byte>, rest: seq<seq<byte>>, s: seq<byte>)
    requires forall j :: !OccursAt(f, j, s)
    requires FramesFree(rest, s)
    ensures FramesFree([f] + rest, s)
  {
    var frames := [f] + rest;
    forall k, j | 0 <= k < |frames|
      ensures !OccursAt(frames[k], j, s)
    {
      if k > 0 {
        assert frames[k] == rest[k - 1];
      }
    }
  }

  /** A slice before the first occurrence of `s` holds no occurrence of it. */
  lemma FrameFree(data: seq<byte>, p: nat, e: nat, s: seq<byte>)
    requires p <= e <= |data| && |s| > 0
    requires forall j :: p <= j < e ==> !OccursAt(data, j, s)
    ensures forall j :: !OccursAt(data[p..e], j, s)
  {
    var f := data[p..e];
    forall j | OccursAt(f, j, s)
      ensures false
    {
      SliceOfSlice(data, p, e, j, |s|);
      assert OccursAt(data, p + j, s);
    }
  }

  /**
   * The first index in [fromInclusive, toExclusive - |s|] at which `s`
   * occurs, or -1: the value `indexOf` computes, as a function. Its
   * first-occurrence properties are FirstIndexOfSpec.
   */
  function FirstIndexOf(data: seq<byte>, fromInclusive: int, toExclusive: int, s: seq<byte>): (r: int)
    requires 0 <= fromInclusive && toExclusive <= |data| && |s| > 0
    ensures r == -1 || (fromInclusive <= r && r + |s| <= toExclusive)
    decreases toExclusive - fromInclusive
  {
    if fromInclusive + |s| > toExclusive then -1
    else if data[fromInclusive..fromInclusive + |s|] == s then fromInclusive
    else FirstIndexOf(data, fromInclusive + 1, toExclusive, s)
  }

  /**
   * A non-negative result is an occurrence wholly inside the range, no
   * occurrence starts earlier, and -1 means there is none at all.
   */
  lemma {:induction false} FirstIndexOfSpec(data: seq<byte>, fromInclusive: int, toExclusive: int, s: seq<byte>)
    requires 0 <= fromInclusive && toExclusive <= |data| && |s| > 0
    ensures var r := FirstIndexOf(data, fromInclusive, toExclusive, s);
      r >= 0 ==> OccursAt(data, r, s) && forall j :: fromInclusive <= j < r ==> !OccursAt(data, j, s)
    ensures FirstIndexOf(data, fromInclusive, toExclusive, s) == -1 <==>
      forall j :: fromInclusive <= j && j + |s| <= toExclusive ==> !OccursAt(data, j, s)
    decreases toExclusive - fromInclusive
  {
    if fromInclusive + |s| > toExclusive {
      assert FirstIndexOf(data, fromInclusive, toExclusive, s) == -1;
    } else if data[fromInclusive..fromInclusive + |s|] == s {
      assert OccursAt(data, fromInclusive, s);
    } else {
      FirstIndexOfSpec(data, fromInclusive + 1, toExclusive, s);
      assert !OccursAt(data, fromInclusive, s);
    }
  }

  /** The first-occurrence properties determine FirstIndexOf uniquely. */
  lemma FirstIndexOfUnique(data: seq<byte>, fromInclusive: nat, toExclusive: int, s: seq<byte>, i: int)
    requires toExclusive <= |data| && |s| > 0
    requires fromInclusive <= i && i + |s| <= toExclusive && OccursAt(data, i, s)
    requires forall j :: fromInclusive <= j < i ==> !OccursAt(data, j, s)
    ensures FirstIndexOf(data, fromInclusive, toExclusive, s) == i
  {
    FirstIndexOfSpec(data, fromInclusive, toExclusive, s);
  }

  /**
   * Appending bytes never moves an occurrence that already lay wholly in
   * the old bytes; when there was none, any new one ends past the old end.
   */
  lemma FirstIndexOfExtend(a: seq<byte>, b: seq<byte>, fromInclusive: nat, s: seq<byte>)
    requires |s| > 0
    ensures var i := FirstIndexOf(a, fromInclusive, |a|, s);
      i >= 0 ==> FirstIndexOf(a + b, fromInclusive, |a + b|, s) == i
    ensures var i := FirstIndexOf(a, fromInclusive, |a|, s);
      i < 0 ==> forall j :: fromInclusive <= j && OccursAt(a + b, j, s) ==> j + |s| > |a|
  {
    var i := FirstIndexOf(a, fromInclusive, |a|, s);
    FirstIndexOfSpec(a, fromInclusive, |a|, s);
    forall j | 0 <= j && j + |s| <= |a|
      ensures OccursAt(a + b, j, s) <==> OccursAt(a, j, s)
    {
      assert (a + b)[j..j + |s|] == a[j..j + |s|];
    }
    if i >= 0 {
      FirstIndexOfUnique(a + b, fromInclusive, |a + b|, s, i);
    }
  }

  /** Starting the search later changes nothing when the skipped positions hold no occurrence. */
  lemma {:induction false} FirstIndexOfSkip(data: seq<byte>, fromInclusive: nat, later: nat, toExclusive: int, s: seq<byte>)
    requires fromInclusive <= later && toExclusive <= |data| && |s| > 0
    requires forall j :: fromInclusive <= j < later ==> !OccursAt(data, j, s)
    ensures FirstIndexOf(data, fromInclusive, toExclusive, s) == FirstIndexOf(data, later, toExclusive, s)
    decreases later - fromInclusive
  {
    if fromInclusive < later && fromInclusive + |s| <= toExclusive {
      assert !OccursAt(data, fromInclusive, s);
      FirstIndexOfSkip(data, fromInclusive + 1, later, toExclusive, s);
    }
  }

  /** The inner loop of `indexOf`: does `sequence` lie at absolute index `i`? */
  method MatchesAt(data: seq<byte>, i: nat, sequence: seq<byte>) returns (matched: bool)
    requires i + |sequence| <= |data|
    ensures matched <==> OccursAt(data, i, sequence)
  {
    matched := true;
    var j := 0;
    while matched && j < |sequence|
      invariant 0 <= j <= |sequence|
      invariant data[i..i + j] == sequence[..j]
      invariant !matched ==> j < |sequence| && data[i + j] != sequence[j]
    {
      if data[i + j] != sequence[j] {
        matched := false;
      } else {
        assert data[i..i + j + 1] == data[i..i + j] + [data[i + j]];
        assert sequence[..j + 1] == sequence[..j] + [sequence[j]];
        j := j + 1;
      }
    }
    if !matched {
      assert data[i..i + |sequence|][j] != sequence[j];
    }
  }

  /**
   * `ByteBufSearch.indexOf(buf, fromInclusive, toExclusive, sequence)`. An empty sequence
   * (Java's null included) or a negative or inverted range raises
   * IllegalArgumentException; otherwise the result is the first absolute
   * index at which the whole sequence lies inside [fromInclusive, toExclusive), or -1
   * (FirstIndexOf, whose first-occurrence properties are FirstIndexOfSpec).
   * The buffer is only read.
   */
  method IndexOf(buf: ByteBuf, fromInclusive: int, toExclusive: int, sequence: seq<byte>) returns (r: Result<int>)
    requires toExclusive <= |buf.data|
    ensures r.Err? <==> (|sequence| == 0 || fromInclusive < 0 || toExclusive < 0 || fromInclusive > toExclusive)
    ensures r.Err? ==> r.error == IllegalArgument
    ensures r.Ok? ==> fromInclusive >= 0 && r.value == FirstIndexOf(buf.data, fromInclusive, toExclusive, sequence)
    ensures r.Ok? && r.value >= 0 ==>
      fromInclusive <= r.value && r.value + |sequence| <= toExclusive
  {
    if |sequence| == 0 {
      return Err(IllegalArgument);
    }
    if fromInclusive < 0 || toExclusive < 0 || fromInclusive > toExclusive {
      return Err(IllegalArgument);
    }
    var data := buf.data;
    var seqLen := |sequence|;
    var maxStart := toExclusive - seqLen;
    var found := -1;
    var i := fromInclusive;
    while i <= maxStart && found < 0
      invariant fromInclusive <= i
      invariant found == -1 || found == i
      invariant i <= maxStart + 1 || i == fromInclusive
      invariant found < 0 ==> FirstIndexOf(data, i, toExclusive, sequence) == FirstIndexOf(data, fromInclusive, toExclusive, sequence)
      invariant found >= 0 ==> found == FirstIndexOf(data, fromInclusive, toExclusive, sequence)
      decreases maxStart + 1 - i, if found < 0 then 1 else 0
    {
      var matched := MatchesAt(data, i, sequence);
      if matched {
        assert OccursAt(data, i, sequence);
        found := i;
      } else {
        i := i + 1;
      }
    }
    if found < 0 {
      assert FirstIndexOf(data, i, toExclusive, sequence) == -1;
    }
    FirstIndexOfSpec(data, fromInclusive, toExclusive, sequence);
    r := Ok(found);
  }
}
