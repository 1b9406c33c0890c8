/** buffer.rs: copying a rectangle within an image, source and destination overlapping or not. */
module ImageBuffers {
  import opened Arithmetic
  import opened Options

  const USIZE_MAX: int := 0xFFFF_FFFF_FFFF_FFFF

  datatype Rect = Rect(x: nat, y: nat, width: nat, height: nat)

  /** Copied, refused because the rectangle does not fit, or `sx + width - 1` falls below zero. */
  datatype CopyOutcome = Copied | Refused | Underflow

  function CheckedMul(a: nat, b: nat): Option<nat> {
    if a * b <= USIZE_MAX then Some(a * b) else None
  }

  function ImageBufferLen(channels: nat, width: nat, height: nat): Option<nat> {
    match CheckedMul(channels, width)
    case None => None
    case Some(row) => CheckedMul(row, height)
  }

  predicate CheckImageFits(channels: nat, width: nat, height: nat, len: nat) {
    match ImageBufferLen(channels, width, height)
    case None => false
    case Some(min) => min <= len
  }

  /** Where the samples of pixel (x, y) start. */
  function PixelIndex(channels: nat, width: nat, x: nat, y: nat): nat {
    (y * width + x) * channels
  }

  // ---- row arithmetic --------------------------------------------------------------------------

  /** A pixel is a row offset and a column offset. */
  lemma PixelIndexIs(channels: nat, width: nat, x: nat, y: nat)
    ensures PixelIndex(channels, width, x, y) == y * (width * channels) + x * channels
  {
    assert (y * width + x) * channels == y * width * channels + x * channels;
  }

  /** A run of `n` samples starting in column offset `o` of row `y` stays before row `y + 1`. */
  lemma RunInRow(y: nat, stride: nat, o: nat, n: nat, y': nat)
    requires o + n <= stride && y < y'
    ensures y * stride + o + n <= y' * stride
  {
    MulMono(y + 1, y', stride);
    assert (y + 1) * stride == y * stride + stride;
  }

  /** In a buffer that fits its image, no pixel index overflows and every pixel is inside. */
  lemma PixelsInBounds(channels: nat, width: nat, height: nat, len: nat, x: nat, y: nat)
    requires CheckImageFits(channels, width, height, len) && width <= U32_MAX && height <= U32_MAX
    requires x < width && y < height
    ensures y * width + x <= USIZE_MAX
    ensures PixelIndex(channels, width, x, y) + channels <= len
    ensures PixelIndex(channels, width, x, y) + channels <= USIZE_MAX
  {
    PixelIndexIs(channels, width, x, y);
    MulMono(x + 1, width, channels);
    assert (x + 1) * channels == x * channels + channels;
    RunInRow(y, width * channels, x * channels, channels, height);
    assert height * (width * channels) == (channels * width) * height by {
      assert width * channels == channels * width;
    }
    MulMono(y, U32_MAX, width);
    MulMono(width, U32_MAX, U32_MAX);
  }

  // ---- rows of a rectangle ---------------------------------------------------------------------

  /** Where row `i` of a rectangle starting at row `y` and column offset `o` begins. */
  function RunStart(stride: nat, o: nat, y: nat, i: nat): nat {
    (y + i) * stride + o
  }

  ghost predicate InRuns(p: nat, stride: nat, o: nat, y: nat, n: nat, lo: nat, hi: nat) {
    exists i :: lo <= i < hi && RunStart(stride, o, y, i) <= p < RunStart(stride, o, y, i) + n
  }

  /** Two rows never share a sample. */
  lemma RunsApart(stride: nat, o: nat, y: nat, i: nat, o': nat, y': nat, i': nat, n: nat)
    requires o + n <= stride && o' + n <= stride && y + i != y' + i'
    ensures RunStart(stride, o, y, i) + n <= RunStart(stride, o', y', i') || RunStart(stride, o', y', i') + n <= RunStart(stride, o, y, i)
  {
    if y + i < y' + i' {
      RunInRow(y + i, stride, o, n, y' + i');
    } else {
      RunInRow(y' + i', stride, o', n, y + i);
    }
  }

  /** A rectangle of whole runs: where it is read from and where it goes. */
  datatype Move = Move(stride: nat, so: nat, sy: nat, dest: nat, dy: nat, n: nat)

  predicate NarrowRows(m: Move) {
    m.so + m.n <= m.stride && m.dest + m.n <= m.stride
  }

  predicate FitsRows(m: Move, rows: nat, len: nat) {
    && NarrowRows(m)
    && (m.sy + rows) * m.stride <= len && (m.dy + rows) * m.stride <= len
  }

  function SrcAt(m: Move, i: nat): nat {
    RunStart(m.stride, m.so, m.sy, i)
  }

  function DstAt(m: Move, i: nat): nat {
    RunStart(m.stride, m.dest, m.dy, i)
  }

  lemma RowInBounds(m: Move, rows: nat, len: nat, i: nat)
    requires FitsRows(m, rows, len) && i < rows
    ensures SrcAt(m, i) + m.n <= len && DstAt(m, i) + m.n <= len
  {
    RunInRow(m.sy + i, m.stride, m.so, m.n, m.sy + rows);
    RunInRow(m.dy + i, m.stride, m.dest, m.n, m.dy + rows);
  }

  /** Rows `lo .. hi` hold what the source rows held before, and everything else is as before. */
  ghost predicate RowsMoved<T(!new)>(before: seq<T>, after: seq<T>, m: Move, rows: nat, lo: nat, hi: nat) {
    && |after| == |before| && lo <= hi <= rows && NarrowRows(m) && FitsRows(m, rows, |before|)
    && (forall i :: lo <= i < hi ==> RowMoved(before, after, m, i))
    && forall p :: 0 <= p < |before| && !InRuns(p, m.stride, m.dest, m.dy, m.n, lo, hi) ==> after[p] == before[p]
  }

  ghost predicate RowMoved<T(!new)>(before: seq<T>, after: seq<T>, m: Move, i: nat) {
    && SrcAt(m, i) + m.n <= |before| && DstAt(m, i) + m.n <= |after|
    && after[DstAt(m, i)..DstAt(m, i) + m.n] == before[SrcAt(m, i)..SrcAt(m, i) + m.n]
  }

  /** The slice after `slice_copy_within`. */
  function Spliced<T>(s: seq<T>, start: nat, end: nat, dest: nat): (r: seq<T>)
    requires start <= end <= |s| && dest + (end - start) <= |s|
    ensures |r| == |s|
  {
    s[..dest] + s[start..end] + s[dest + (end - start)..]
  }

  /** Copying one more row, whose source no finished row has overwritten. */
  lemma RowStep<T(!new)>(before: seq<T>, mid: seq<T>, m: Move, rows: nat, lo: nat, hi: nat, i: nat)
    requires RowsMoved(before, mid, m, rows, lo, hi) && i < rows
    requires i == hi || i + 1 == lo
    requires !(lo <= m.sy + i - m.dy < hi)
    ensures SrcAt(m, i) + m.n <= |before| && DstAt(m, i) + m.n <= |before|
    ensures RowsMoved(before, Spliced(mid, SrcAt(m, i), SrcAt(m, i) + m.n, DstAt(m, i)), m, rows,
                      if i == hi then lo else i, if i == hi then i + 1 else hi)
  {
    hide RunStart, FitsRows, RowMoved, Spliced;
    RowInBounds(m, rows, |before|, i);
    var src, dst := SrcAt(m, i), DstAt(m, i);
    var after := Spliced(mid, src, src + m.n, dst);
    var lo', hi' := if i == hi then lo else i, if i == hi then i + 1 else hi;
    SourceIntact(before, mid, m, rows, lo, hi, i);
    SplicedIs(mid, src, src + m.n, dst);
    RowIsMoved(before, mid, m, i);
    forall k | lo' <= k < hi'
      ensures RowMoved(before, after, m, k)
    {
      if k != i {
        OtherRowKept(before, mid, m, rows, i, k);
      }
    }
    forall p | 0 <= p < |before| && !InRuns(p, m.stride, m.dest, m.dy, m.n, lo', hi')
      ensures after[p] == before[p]
    {
      assert !(RunStart(m.stride, m.dest, m.dy, i) <= p < RunStart(m.stride, m.dest, m.dy, i) + m.n);
      assert !InRuns(p, m.stride, m.dest, m.dy, m.n, lo, hi);
      assert after[p] == mid[p];
    }
  }

  lemma SplicedIs<T(!new)>(s: seq<T>, start: nat, end: nat, dest: nat)
    requires start <= end <= |s| && dest + (end - start) <= |s|
    ensures var r := Spliced(s, start, end, dest);
            && r[dest..dest + (end - start)] == s[start..end]
            && forall p :: 0 <= p < |s| && !(dest <= p < dest + (end - start)) ==> r[p] == s[p]
  {
  }

  lemma RowIsMoved<T(!new)>(before: seq<T>, mid: seq<T>, m: Move, i: nat)
    requires |mid| == |before| && SrcAt(m, i) + m.n <= |before| && DstAt(m, i) + m.n <= |before|
    requires mid[SrcAt(m, i)..SrcAt(m, i) + m.n] == before[SrcAt(m, i)..SrcAt(m, i) + m.n]
    ensures RowMoved(before, Spliced(mid, SrcAt(m, i), SrcAt(m, i) + m.n, DstAt(m, i)), m, i)
  {
    hide RunStart, Spliced;
    SplicedIs(mid, SrcAt(m, i), SrcAt(m, i) + m.n, DstAt(m, i));
  }

  /** The finished rows lie in other rows than the source of row `i`. */
  lemma SourceIntact<T(!new)>(before: seq<T>, mid: seq<T>, m: Move, rows: nat, lo: nat, hi: nat, i: nat)
    requires RowsMoved(before, mid, m, rows, lo, hi) && i < rows && SrcAt(m, i) + m.n <= |before|
    requires !(lo <= m.sy + i - m.dy < hi)
    ensures mid[SrcAt(m, i)..SrcAt(m, i) + m.n] == before[SrcAt(m, i)..SrcAt(m, i) + m.n]
  {
    hide RunStart, FitsRows, RowMoved;
    var src := SrcAt(m, i);
    forall p | src <= p < src + m.n
      ensures mid[p] == before[p]
    {
      if InRuns(p, m.stride, m.dest, m.dy, m.n, lo, hi) {
        var k :| lo <= k < hi && RunStart(m.stride, m.dest, m.dy, k) <= p < RunStart(m.stride, m.dest, m.dy, k) + m.n;
        RunsApart(m.stride, m.dest, m.dy, k, m.so, m.sy, i, m.n);
        assert false;
      }
    }
  }

  /** Writing row `i` leaves row `k` of the destination alone. */
  lemma OtherRowKept<T(!new)>(before: seq<T>, mid: seq<T>, m: Move, rows: nat, i: nat, k: nat)
    requires |mid| == |before| && FitsRows(m, rows, |before|) && i < rows && k < rows && i != k
    requires RowMoved(before, mid, m, k)
    requires SrcAt(m, i) + m.n <= |mid| && DstAt(m, i) + m.n <= |mid|
    ensures RowMoved(before, Spliced(mid, SrcAt(m, i), SrcAt(m, i) + m.n, DstAt(m, i)), m, k)
  {
    var after := Spliced(mid, SrcAt(m, i), SrcAt(m, i) + m.n, DstAt(m, i));
    hide RunStart, Spliced;
    RowInBounds(m, rows, |before|, k);
    RunsApart(m.stride, m.dest, m.dy, i, m.dest, m.dy, k, m.n);
    SplicedIs(mid, SrcAt(m, i), SrcAt(m, i) + m.n, DstAt(m, i));
    assert after[DstAt(m, k)..DstAt(m, k) + m.n] == mid[DstAt(m, k)..DstAt(m, k) + m.n];
  }

  // ---- pixels of a rectangle -------------------------------------------------------------------

  /** The position of sample `k` of pixel (j, i) of the rectangle whose corner is (x, y). */
  function Sample(channels: nat, width: nat, x: nat, y: nat, i: nat, j: nat, k: nat): nat {
    PixelIndex(channels, width, x + j, y + i) + k
  }

  ghost predicate InRect(p: nat, channels: nat, width: nat, r: Rect) {
    exists i, j, k :: 0 <= i < r.height && 0 <= j < r.width && 0 <= k < channels && p == Sample(channels, width, r.x, r.y, i, j, k)
  }

  /** Every pixel of the destination holds what its source pixel held before; nothing else changed. */
  ghost predicate RectMoved<T(!new)>(before: seq<T>, after: seq<T>, channels: nat, width: nat, source: Rect, dx: nat, dy: nat) {
    && |after| == |before|
    && (forall i, j, k :: 0 <= i < source.height && 0 <= j < source.width && 0 <= k < channels ==>
          var to, from := Sample(channels, width, dx, dy, i, j, k), Sample(channels, width, source.x, source.y, i, j, k);
          to < |after| && from < |before| && after[to] == before[from])
    && (forall p :: 0 <= p < |before| && !InRect(p, channels, width, Rect(dx, dy, source.width, source.height)) ==>
          after[p] == before[p])
  }

  function MoveOf(channels: nat, width: nat, source: Rect, dx: nat, dy: nat): Move {
    Move(width * channels, source.x * channels, source.y, dx * channels, dy, source.width * channels)
  }

  lemma SampleInRun(channels: nat, width: nat, x: nat, y: nat, i: nat, j: nat, k: nat)
    ensures Sample(channels, width, x, y, i, j, k) == RunStart(width * channels, x * channels, y, i) + (j * channels + k)
  {
    PixelIndexIs(channels, width, x + j, y + i);
    assert (x + j) * channels == x * channels + j * channels;
  }

  lemma OffsetInRun(channels: nat, w: nat, j: nat, k: nat)
    requires j < w && k < channels
    ensures j * channels + k < w * channels
  {
    MulMono(j + 1, w, channels);
    assert (j + 1) * channels == j * channels + channels;
  }

  /** Every offset in a run belongs to a pixel. */
  lemma OffsetIsSample(channels: nat, w: nat, t: nat) returns (j: nat, k: nat)
    requires t < w * channels
    ensures j < w && k < channels && t == j * channels + k
  {
    assert channels == 0 ==> w * channels == 0;
    if channels == 0 {
      assert false;
    }
    j, k := t / channels, t % channels;
    assert t == channels * (t / channels) + t % channels;
    assert j * channels == channels * j;
    if j >= w {
      MulMono(w, j, channels);
      assert false;
    }
  }

  /** Moving all rows is moving the rectangle. */
  lemma RowsMakeRect<T(!new)>(before: seq<T>, after: seq<T>, channels: nat, width: nat, source: Rect, dx: nat, dy: nat)
    requires RowsMoved(before, after, MoveOf(channels, width, source, dx, dy), source.height, 0, source.height)
    ensures RectMoved(before, after, channels, width, source, dx, dy)
  {
    var m := MoveOf(channels, width, source, dx, dy);
    forall i, j, k | 0 <= i < source.height && 0 <= j < source.width && 0 <= k < channels
      ensures var to, from := Sample(channels, width, dx, dy, i, j, k), Sample(channels, width, source.x, source.y, i, j, k);
              to < |after| && from < |before| && after[to] == before[from]
    {
      SampleMoved(before, after, channels, width, source, dx, dy, i, j, k);
    }
    forall p | 0 <= p < |before| && !InRect(p, channels, width, Rect(dx, dy, source.width, source.height))
      ensures after[p] == before[p]
    {
      if InRuns(p, m.stride, m.dest, m.dy, m.n, 0, source.height) {
        RunsAreRect(p, channels, width, source, dx, dy);
        assert false;
      }
    }
  }

  lemma SampleMoved<T(!new)>(before: seq<T>, after: seq<T>, channels: nat, width: nat, source: Rect, dx: nat, dy: nat,
                             i: nat, j: nat, k: nat)
    requires RowMoved(before, after, MoveOf(channels, width, source, dx, dy), i)
    requires j < source.width && k < channels
    ensures var to, from := Sample(channels, width, dx, dy, i, j, k), Sample(channels, width, source.x, source.y, i, j, k);
            to < |after| && from < |before| && after[to] == before[from]
  {
    hide RunStart, Sample;
    var m := MoveOf(channels, width, source, dx, dy);
    SampleInRun(channels, width, dx, dy, i, j, k);
    SampleInRun(channels, width, source.x, source.y, i, j, k);
    OffsetInRun(channels, source.width, j, k);
    var t := j * channels + k;
    assert after[DstAt(m, i)..DstAt(m, i) + m.n][t] == before[SrcAt(m, i)..SrcAt(m, i) + m.n][t];
  }

  lemma RunsAreRect(p: nat, channels: nat, width: nat, source: Rect, dx: nat, dy: nat)
    requires var m := MoveOf(channels, width, source, dx, dy); InRuns(p, m.stride, m.dest, m.dy, m.n, 0, source.height)
    ensures InRect(p, channels, width, Rect(dx, dy, source.width, source.height))
  {
    var m := MoveOf(channels, width, source, dx, dy);
    var i :| 0 <= i < source.height && RunStart(m.stride, m.dest, m.dy, i) <= p < RunStart(m.stride, m.dest, m.dy, i) + m.n;
    var j, k := OffsetIsSample(channels, source.width, p - RunStart(m.stride, m.dest, m.dy, i));
    SampleInRun(channels, width, dx, dy, i, j, k);
  }

  // ---- the buffer ------------------------------------------------------------------------------

  /** Copies a range of the slice within the slice, as if through a temporary. */
  method SliceCopyWithin<T(!new)>(slice: array<T>, start: nat, end: nat, dest: nat)
    requires start <= end <= slice.Length && dest <= slice.Length - (end - start)
    modifies slice
    ensures slice[..] == Spliced(old(slice[..]), start, end, dest)
  {
    var count := end - start;
    forall i | 0 <= i < count {
      slice[dest + i] := slice[start + i];
    }
    assert forall p :: 0 <= p < slice.Length ==>
      slice[p] == if dest <= p < dest + count then old(slice[start + (p - dest)]) else old(slice[p]);
  }

  lemma BufferHolds(channels: nat, width: nat, height: nat, len: nat)
    requires CheckImageFits(channels, width, height, len)
    ensures height * (width * channels) <= len
  {
    assert width * channels == channels * width;
    assert height * (channels * width) == (channels * width) * height;
  }

  lemma ColumnsFit(x: nat, w: nat, width: nat, channels: nat)
    requires x + w <= width
    ensures x * channels + w * channels <= width * channels
  {
    MulMono(x + w, width, channels);
    assert (x + w) * channels == x * channels + w * channels;
  }

  class ImageBuffer<T(!new)> {
    const channels: nat
    const width: nat
    const height: nat
    const data: array<T>

    predicate Valid() {
      CheckImageFits(channels, width, height, data.Length) && width <= U32_MAX && height <= U32_MAX
    }

    constructor (channels: nat, width: nat, height: nat, data: array<T>)
      requires width <= U32_MAX && height <= U32_MAX && CheckImageFits(channels, width, height, data.Length)
      ensures Valid() && this.data == data && this.channels == channels && this.width == width && this.height == height
    {
      this.channels, this.width, this.height, this.data := channels, width, height, data;
    }

    /** The rectangle fits at both places. */
    predicate FitsAt(source: Rect, dx: nat, dy: nat) {
      && source.x + source.width <= width && dx + source.width <= width
      && source.y + source.height <= height && dy + source.height <= height
    }

    lemma MoveFits(source: Rect, dx: nat, dy: nat)
      requires Valid() && FitsAt(source, dx, dy)
      ensures FitsRows(MoveOf(channels, width, source, dx, dy), source.height, data.Length)
    {
      hide CheckImageFits;
      BufferHolds(channels, width, height, data.Length);
      ColumnsFit(source.x, source.width, width, channels);
      ColumnsFit(dx, source.width, width, channels);
      MulMono(source.y + source.height, height, width * channels);
      MulMono(dy + source.height, height, width * channels);
    }

    /** Copies row `i` of the rectangle, from the first pixel's start to the last pixel's end. */
    method CopyRow(source: Rect, dx: nat, dy: nat, i: nat)
      requires Valid() && FitsAt(source, dx, dy) && i < source.height && source.x + source.width > 0
      modifies data
      ensures var m := MoveOf(channels, width, source, dx, dy);
              && SrcAt(m, i) + m.n <= data.Length && DstAt(m, i) + m.n <= data.Length
              && data[..] == Spliced(old(data[..]), SrcAt(m, i), SrcAt(m, i) + m.n, DstAt(m, i))
    {
      hide CheckImageFits, FitsRows, PixelIndex;
      ghost var m := MoveOf(channels, width, source, dx, dy);
      MoveFits(source, dx, dy);
      RowInBounds(m, source.height, data.Length, i);
      var sy, dy := source.y + i, dy + i;
      var start := PixelIndex(channels, width, source.x, sy);
      var end := PixelIndex(channels, width, source.x + source.width - 1, sy) + channels;
      var dst := PixelIndex(channels, width, dx, dy);
      PixelIndexIs(channels, width, source.x, sy);
      PixelIndexIs(channels, width, dx, dy);
      EndOfRow(channels, width, source.x, source.width, sy);
      SliceCopyWithin(data, start, end, dst);
    }

    /** The rows from the last to the first, for a destination below the source. */
    method CopyUpwards(source: Rect, dx: nat, dy: nat)
      requires Valid() && FitsAt(source, dx, dy) && source.y < dy
      requires source.height > 0 ==> source.x + source.width > 0
      modifies data
      ensures RowsMoved(old(data[..]), data[..], MoveOf(channels, width, source, dx, dy), source.height, 0, source.height)
    {
      ghost var before, m := data[..], MoveOf(channels, width, source, dx, dy);
      MoveFits(source, dx, dy);
      var y := source.height;
      while y > 0
        invariant 0 <= y <= source.height
        invariant RowsMoved(before, data[..], m, source.height, y, source.height)
      {
        hide RowsMoved, Spliced, FitsRows, CheckImageFits;
        y := y - 1;
        RowStep(before, data[..], m, source.height, y + 1, source.height, y);
        CopyRow(source, dx, dy, y);
      }
    }

    /** The rows from the first to the last, for any other destination. */
    method CopyDownwards(source: Rect, dx: nat, dy: nat)
      requires Valid() && FitsAt(source, dx, dy) && source.y >= dy
      requires source.height > 0 ==> source.x + source.width > 0
      modifies data
      ensures RowsMoved(old(data[..]), data[..], MoveOf(channels, width, source, dx, dy), source.height, 0, source.height)
    {
      ghost var before, m := data[..], MoveOf(channels, width, source, dx, dy);
      MoveFits(source, dx, dy);
      for y := 0 to source.height
        invariant RowsMoved(before, data[..], m, source.height, 0, y)
      {
        hide RowsMoved, Spliced, FitsRows, CheckImageFits;
        RowStep(before, data[..], m, source.height, 0, y, y);
        CopyRow(source, dx, dy, y);
      }
    }

    /**
     * Moves a rectangle within the image. Whatever the overlap, the result is as if all pixels had
     * been read before any was written.
     */
    method CopyWithin(source: Rect, dx: nat, dy: nat) returns (outcome: CopyOutcome)
      requires Valid()
      requires source.x < width && dx < width && source.y < height && dy < height
      modifies data
      ensures outcome == Refused <==> !FitsAt(source, dx, dy)
      ensures outcome == Underflow <==> FitsAt(source, dx, dy) && source.width == 0 && source.x == 0 && source.height > 0
      ensures outcome == Copied ==> RectMoved(old(data[..]), data[..], channels, width, source, dx, dy)
      ensures outcome != Copied ==> data[..] == old(data[..])
    {
      var maxX, maxY := if dx >= source.x then dx else source.x, if dy >= source.y then dy else source.y;
      if width - maxX < source.width || height - maxY < source.height {
        return Refused;
      }
      if source.width == 0 && source.x == 0 && source.height > 0 {
        return Underflow;
      }
      ghost var before := data[..];
      if source.y < dy {
        CopyUpwards(source, dx, dy);
      } else {
        CopyDownwards(source, dx, dy);
      }
      RowsMakeRect(before, data[..], channels, width, source, dx, dy);
      outcome := Copied;
    }
  }

  lemma EndOfRow(channels: nat, width: nat, x: nat, w: nat, y: nat)
    requires x + w > 0
    ensures PixelIndex(channels, width, x + w - 1, y) + channels == PixelIndex(channels, width, x, y) + w * channels
  {
    PixelIndexIs(channels, width, x + w - 1, y);
    PixelIndexIs(channels, width, x, y);
    assert (x + w - 1) * channels == x * channels + w * channels - channels;
  }

  /** `from_raw`: an image is made exactly if it fits into the buffer. */
  method FromRaw<T(!new)>(channels: nat, width: nat, height: nat, buf: array<T>) returns (r: Option<ImageBuffer<T>>)
    requires width <= U32_MAX && height <= U32_MAX
    ensures r.Some? <==> channels * width <= USIZE_MAX && channels * width * height <= buf.Length && channels * width * height <= USIZE_MAX
    ensures r.Some? ==> r.value.Valid() && r.value.data == buf
  {
    if !CheckImageFits(channels, width, height, buf.Length) {
      return None;
    }
    var image := new ImageBuffer(channels, width, height, buf);
    r := Some(image);
  }
}
