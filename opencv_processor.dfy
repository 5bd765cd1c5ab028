/**
 * The YUV staging step of the native frame processor (OpenCvProcessor):
 * caching the frame dimensions, sizing the staging matrices, copying the
 * strided Y plane into a packed buffer and interleaving the V and U planes
 * below it in NV21 order.
 */
module OpenCvStaging {
  import opened Image

  // ---------------------------------------------------------------------------
  // Arithmetic helpers for row-major layouts
  // ---------------------------------------------------------------------------

  lemma MulMonotone(a: int, b: int, c: int)
    requires a <= b && 0 <= c
    ensures a * c <= b * c
  {
  }

  /** Offset `k1` of row `r1` comes before offset `k2` of any later row, when rows are `width` long. */
  lemma RowsApart(width: int, r1: int, k1: int, r2: int, k2: int)
    requires 0 <= k1 < width && 0 <= k2 && r1 < r2
    ensures r1 * width + k1 < r2 * width + k2
  {
    MulMonotone(r1 + 1, r2, width);
  }

  // ---------------------------------------------------------------------------
  // The camera frame handed to processFrame
  // ---------------------------------------------------------------------------

  /** The Y plane holds every byte the row copy reads: the last row starts at (height-1)*rowStride. */
  predicate LumaFits(yLen: int, rowStride: int, width: int, height: int) {
    height > 0 && width > 0 ==> yLen >= (height - 1) * rowStride + width
  }

  /** A chroma plane holds every byte the interleave reads from it. */
  predicate ChromaFits(len: int, rowStride: int, pixelStride: int, width: int, height: int) {
    height / 2 > 0 && width / 2 > 0 ==>
      len >= (height / 2 - 1) * rowStride + (width / 2 - 1) * pixelStride + 1
  }

  /**
   * The arguments of processFrame that describe the image: three borrowed
   * planes, the distance in bytes between chroma samples (`pixelStride`) and
   * between rows (`rowStride`, the same for all three planes), and the size.
   */
  datatype CameraFrame = CameraFrame(yPlane: seq<byte>, uPlane: seq<byte>, vPlane: seq<byte>,
                                     pixelStride: int, rowStride: int, width: int, height: int)
  {
    /** Sizes and strides are not negative, and each plane holds every byte the copy reads from it. */
    predicate Readable() {
      && 0 <= width && 0 <= height && 0 <= pixelStride && 0 <= rowStride
      && LumaFits(|yPlane|, rowStride, width, height)
      && ChromaFits(|uPlane|, rowStride, pixelStride, width, height)
      && ChromaFits(|vPlane|, rowStride, pixelStride, width, height)
    }

    /** Bytes in the staging buffer: a Y block of height*width, then height/2 chroma rows of width. */
    function StagingLength(): (n: int)
      requires 0 <= width && 0 <= height
      ensures height * width <= n
    {
      MulMonotone(0, height / 2, width);
      height * width + (height / 2) * width
    }

    /** Index in the Y plane of luma sample (y, x); the read is in bounds. */
    function LumaIndex(y: int, x: int): (i: int)
      requires Readable() && 0 <= y < height && 0 <= x < width
      ensures 0 <= i < |yPlane|
    {
      MulMonotone(y, height - 1, rowStride);
      y * rowStride + x
    }

    /** Index, in both chroma planes, of the samples of chroma pair (row, col); both reads are in bounds. */
    function ChromaIndex(row: int, col: int): (i: int)
      requires Readable() && 0 <= row < height / 2 && 0 <= col < width / 2
      ensures 0 <= i < |uPlane| && i < |vPlane|
    {
      MulMonotone(row, height / 2 - 1, rowStride);
      MulMonotone(col, width / 2 - 1, pixelStride);
      row * rowStride + col * pixelStride
    }
  }

  /** Index in the staging buffer of luma sample (y, x): it lies in row y of the Y block. */
  function LumaDst(width: int, height: int, y: int, x: int): (i: int)
    requires 0 <= y < height && 0 <= x < width
    ensures 0 <= i < height * width
  {
    MulMonotone(y + 1, height, width);
    y * width + x
  }

  /**
   * Index in the staging buffer of the V sample of chroma pair (row, col); the
   * U sample follows it. Both lie in chroma row `row`, below the Y block.
   */
  function ChromaDst(width: int, height: int, row: int, col: int): (i: int)
    requires 0 <= height && 0 <= row < height / 2 && 0 <= col < width / 2
    ensures height * width <= i && i + 1 < height * width + (height / 2) * width
  {
    MulMonotone(row + 1, height / 2, width);
    height * width + row * width + 2 * col
  }

  /** The last byte of chroma row `row`. */
  function ChromaPad(width: int, height: int, row: int): (i: int)
    requires 0 <= height && 0 <= row < height / 2 && 0 < width
    ensures height * width <= i < height * width + (height / 2) * width
  {
    MulMonotone(row + 1, height / 2, width);
    height * width + row * width + width - 1
  }

  // ---------------------------------------------------------------------------
  // Properties of the layout
  // ---------------------------------------------------------------------------

  /** Distinct luma samples land on distinct staging bytes. */
  lemma LumaStoresDistinct(width: int, height: int, y1: int, x1: int, y2: int, x2: int)
    requires 0 <= y1 < height && 0 <= x1 < width
    requires 0 <= y2 < height && 0 <= x2 < width
    requires (y1, x1) != (y2, x2)
    ensures LumaDst(width, height, y1, x1) != LumaDst(width, height, y2, x2)
  {
    if y1 < y2 {
      RowsApart(width, y1, x1, y2, x2);
    } else if y2 < y1 {
      RowsApart(width, y2, x2, y1, x1);
    }
  }

  /**
   * The four bytes written for two distinct chroma pairs are all different, so
   * no store of the interleave overwrites another one.
   */
  lemma ChromaStoresDistinct(width: int, height: int, r1: int, c1: int, r2: int, c2: int)
    requires 0 <= height
    requires 0 <= r1 < height / 2 && 0 <= c1 < width / 2
    requires 0 <= r2 < height / 2 && 0 <= c2 < width / 2
    requires (r1, c1) != (r2, c2)
    ensures ChromaDst(width, height, r1, c1) != ChromaDst(width, height, r2, c2)
    ensures ChromaDst(width, height, r1, c1) != ChromaDst(width, height, r2, c2) + 1
    ensures ChromaDst(width, height, r1, c1) + 1 != ChromaDst(width, height, r2, c2)
  {
    if r1 < r2 {
      RowsApart(width, r1, 2 * c1 + 1, r2, 2 * c2);
    } else if r2 < r1 {
      RowsApart(width, r2, 2 * c2 + 1, r1, 2 * c1);
    }
  }

  /**
   * When the width is odd, the last byte of a chroma row is neither a luma
   * store nor a chroma store: the interleave leaves it as it was.
   */
  lemma OddWidthPadUntouched(width: int, height: int, row: int)
    requires 0 <= height && 0 < width && width % 2 == 1 && 0 <= row < height / 2
    ensures forall y, x :: 0 <= y < height && 0 <= x < width ==>
      LumaDst(width, height, y, x) != ChromaPad(width, height, row)
    ensures forall r, c :: 0 <= r < height / 2 && 0 <= c < width / 2 ==>
      ChromaDst(width, height, r, c) != ChromaPad(width, height, row) &&
      ChromaDst(width, height, r, c) + 1 != ChromaPad(width, height, row)
  {
    forall r, c | 0 <= r < height / 2 && 0 <= c < width / 2
      ensures ChromaDst(width, height, r, c) != ChromaPad(width, height, row)
      ensures ChromaDst(width, height, r, c) + 1 != ChromaPad(width, height, row)
    {
      if r < row {
        RowsApart(width, r, 2 * c + 1, row, width - 1);
      } else if row < r {
        RowsApart(width, row, width - 1, r, 2 * c);
      }
    }
  }

  /** Flat index `i` is column `i % width` of row `i / width`. */
  lemma RowColumn(width: int, i: int)
    requires 0 < width && 0 <= i
    ensures 0 <= i / width && 0 <= i % width < width
    ensures i == (i / width) * width + i % width
  {
  }

  /** Every byte of the Y block is the store of exactly the luma sample at its row and column. */
  lemma LumaCoverage(width: int, height: int, i: int)
    requires 0 < width && 0 <= height && 0 <= i < height * width
    ensures 0 <= i / width < height && LumaDst(width, height, i / width, i % width) == i
  {
    RowColumn(width, i);
    if height <= i / width {
      MulMonotone(height, i / width, width);
    }
  }

  /** Every byte of the chroma block lies at some column of one of the `height / 2` chroma rows. */
  lemma ChromaCoverage(width: int, height: int, i: int)
    requires 0 < width && 0 <= height
    requires height * width <= i < height * width + (height / 2) * width
    ensures var j := i - height * width;
      && 0 <= j / width < height / 2
      && i == height * width + (j / width) * width + j % width
  {
    var j := i - height * width;
    RowColumn(width, j);
    if height / 2 <= j / width {
      MulMonotone(height / 2, j / width, width);
    }
  }

  /**
   * Every staging byte below `height*width + (height/2)*width` is a luma store,
   * one of the two chroma stores, or (odd width only) the last byte of a
   * chroma row: the copy and the interleave fill the whole buffer but the pads.
   */
  lemma StagingCoverage(width: int, height: int, i: int)
    requires 0 < width && 0 <= height
    requires 0 <= i < height * width + (height / 2) * width
    ensures || (exists y, x :: 0 <= y < height && 0 <= x < width && LumaDst(width, height, y, x) == i)
            || (exists r, c :: 0 <= r < height / 2 && 0 <= c < width / 2 &&
                  (ChromaDst(width, height, r, c) == i || ChromaDst(width, height, r, c) + 1 == i))
            || (width % 2 == 1 && exists r :: 0 <= r < height / 2 && ChromaPad(width, height, r) == i)
  {
    if i < height * width {
      LumaCoverage(width, height, i);
      var y, x := i / width, i % width;
      assert LumaDst(width, height, y, x) == i;
    } else {
      ChromaCoverage(width, height, i);
      var j := i - height * width;
      var r, k := j / width, j % width;
      if k < 2 * (width / 2) {
        var c := k / 2;
        assert ChromaDst(width, height, r, c) == i || ChromaDst(width, height, r, c) + 1 == i;
      } else {
        assert ChromaPad(width, height, r) == i;
      }
    }
  }

  // ---------------------------------------------------------------------------
  // What a snapshot of the staging buffer holds
  // ---------------------------------------------------------------------------

  /** s and t agree on every index in [lo, hi) that exists. */
  ghost predicate Agree(s: seq<byte>, t: seq<byte>, lo: int, hi: int)
    requires |s| == |t|
  {
    forall i :: 0 <= i < |s| && lo <= i < hi ==> s[i] == t[i]
  }

  /** The first `rows` rows of the Y block of s hold the frame's luma samples. */
  ghost predicate LumaCopied(f: CameraFrame, s: seq<byte>, rows: int)
    requires f.Readable() && |s| == f.StagingLength() && rows <= f.height
  {
    forall y, x :: 0 <= y < rows && 0 <= x < f.width ==>
      s[LumaDst(f.width, f.height, y, x)] == f.yPlane[f.LumaIndex(y, x)]
  }

  /** Chroma pairs (row, 0), ..., (row, cols - 1) of s hold V then U. */
  ghost predicate ChromaRowDone(f: CameraFrame, s: seq<byte>, row: int, cols: int)
    requires f.Readable() && |s| == f.StagingLength() && 0 <= row < f.height / 2 && cols <= f.width / 2
  {
    forall c :: 0 <= c < cols ==>
      && s[ChromaDst(f.width, f.height, row, c)] == f.vPlane[f.ChromaIndex(row, c)]
      && s[ChromaDst(f.width, f.height, row, c) + 1] == f.uPlane[f.ChromaIndex(row, c)]
  }

  /** The first `rows` chroma rows of s hold every pair of the frame, V then U. */
  ghost predicate ChromaCopied(f: CameraFrame, s: seq<byte>, rows: int)
    requires f.Readable() && |s| == f.StagingLength() && rows <= f.height / 2
  {
    forall r, c :: 0 <= r < rows && 0 <= c < f.width / 2 ==>
      && s[ChromaDst(f.width, f.height, r, c)] == f.vPlane[f.ChromaIndex(r, c)]
      && s[ChromaDst(f.width, f.height, r, c) + 1] == f.uPlane[f.ChromaIndex(r, c)]
  }

  /** For an odd width, the last bytes of the first `rows` chroma rows are as in base. */
  ghost predicate PadsKept(f: CameraFrame, s: seq<byte>, base: seq<byte>, rows: int)
    requires f.Readable() && |s| == |base| == f.StagingLength() && rows <= f.height / 2
  {
    0 < f.width && f.width % 2 == 1 ==> forall r :: 0 <= r < rows ==>
      s[ChromaPad(f.width, f.height, r)] == base[ChromaPad(f.width, f.height, r)]
  }

  /** Copying luma row y onto a buffer with rows 0..y done, without touching them, gives rows 0..y+1. */
  lemma LumaRowStep(f: CameraFrame, s: seq<byte>, t: seq<byte>, y: int)
    requires f.Readable() && |s| == |t| == f.StagingLength() && 0 <= y < f.height
    requires LumaCopied(f, s, y) && Agree(s, t, 0, y * f.width)
    requires forall x :: 0 <= x < f.width ==>
      t[LumaDst(f.width, f.height, y, x)] == f.yPlane[f.LumaIndex(y, x)]
    ensures LumaCopied(f, t, y + 1)
  {
    forall y', x | 0 <= y' < y && 0 <= x < f.width
      ensures t[LumaDst(f.width, f.height, y', x)] == f.yPlane[f.LumaIndex(y', x)]
    {
      RowsApart(f.width, y', x, y, 0);
    }
  }

  /** The Y block survives any change beyond it. */
  lemma LumaKept(f: CameraFrame, s: seq<byte>, t: seq<byte>)
    requires f.Readable() && |s| == |t| == f.StagingLength()
    requires LumaCopied(f, s, f.height) && Agree(s, t, 0, f.height * f.width)
    ensures LumaCopied(f, t, f.height)
  {
  }

  /** Both bytes of a pair in an earlier chroma row lie before row `row`, so they survive. */
  lemma EarlierPairKept(f: CameraFrame, s: seq<byte>, t: seq<byte>, row: int, r: int, c: int)
    requires f.Readable() && |s| == |t| == f.StagingLength() && 0 <= r < row < f.height / 2
    requires 0 <= c < f.width / 2
    requires Agree(s, t, 0, f.height * f.width + row * f.width)
    ensures t[ChromaDst(f.width, f.height, r, c)] == s[ChromaDst(f.width, f.height, r, c)]
    ensures t[ChromaDst(f.width, f.height, r, c) + 1] == s[ChromaDst(f.width, f.height, r, c) + 1]
  {
    RowsApart(f.width, r, 2 * c + 1, row, 0);
  }

  /**
   * Interleaving chroma row `row` onto a buffer with rows 0..row done, without
   * touching anything before that row, gives rows 0..row+1.
   */
  lemma ChromaRowStep(f: CameraFrame, s: seq<byte>, t: seq<byte>, row: int)
    requires f.Readable() && |s| == |t| == f.StagingLength() && 0 <= row < f.height / 2
    requires ChromaCopied(f, s, row)
    requires Agree(s, t, 0, f.height * f.width + row * f.width)
    requires ChromaRowDone(f, t, row, f.width / 2)
    ensures ChromaCopied(f, t, row + 1)
  {
    forall r, c | 0 <= r < row + 1 && 0 <= c < f.width / 2
      ensures t[ChromaDst(f.width, f.height, r, c)] == f.vPlane[f.ChromaIndex(r, c)]
      ensures t[ChromaDst(f.width, f.height, r, c) + 1] == f.uPlane[f.ChromaIndex(r, c)]
    {
      if r < row {
        EarlierPairKept(f, s, t, row, r, c);
      }
    }
  }

  /**
   * After chroma row `row` is written (bytes rowStart .. rowStart + 2*(width/2)),
   * the pads of rows 0..row are still as in base.
   */
  lemma PadRowStep(f: CameraFrame, base: seq<byte>, s: seq<byte>, t: seq<byte>, row: int)
    requires f.Readable() && |base| == |s| == |t| == f.StagingLength() && 0 <= row < f.height / 2
    requires PadsKept(f, s, base, row)
    requires Agree(base, s, f.height * f.width + row * f.width, |s|)
    requires Agree(s, t, 0, f.height * f.width + row * f.width)
    requires Agree(s, t, f.height * f.width + row * f.width + 2 * (f.width / 2), |t|)
    ensures PadsKept(f, t, base, row + 1)
  {
    if 0 < f.width && f.width % 2 == 1 {
      forall r | 0 <= r < row + 1
        ensures t[ChromaPad(f.width, f.height, r)] == base[ChromaPad(f.width, f.height, r)]
      {
        if r < row {
          RowsApart(f.width, r, f.width - 1, row, 0);
        }
      }
    }
  }

  /** Bytes from the next chroma row on are still as in base after row `row` is written. */
  /**
   * The copy of Y row `y` (bytes y*width .. y*width + width of t, the rest as
   * in s) stores every pixel of that row and leaves the other rows and the
   * chroma block as they were.
   */
  lemma LumaRowWritten(f: CameraFrame, s: seq<byte>, t: seq<byte>, y: int)
    requires f.Readable() && |s| == |t| == f.StagingLength() && 0 <= y < f.height
    requires 0 <= y * f.rowStride && (0 < f.width ==> y * f.rowStride + f.width <= |f.yPlane|)
    requires forall k :: 0 <= k < |t| ==>
      t[k] == if y * f.width <= k < y * f.width + f.width then f.yPlane[y * f.rowStride + k - y * f.width] else s[k]
    ensures forall x :: 0 <= x < f.width ==>
      t[LumaDst(f.width, f.height, y, x)] == f.yPlane[f.LumaIndex(y, x)]
    ensures Agree(s, t, 0, y * f.width)
    ensures Agree(s, t, f.height * f.width, |t|)
  {
    MulMonotone(y + 1, f.height, f.width);
    assert (y + 1) * f.width == y * f.width + f.width;
    forall x | 0 <= x < f.width
      ensures t[LumaDst(f.width, f.height, y, x)] == f.yPlane[f.LumaIndex(y, x)]
    {
      var k := y * f.width + x;
      assert LumaDst(f.width, f.height, y, x) == k && f.LumaIndex(y, x) == y * f.rowStride + k - y * f.width;
    }
  }

  lemma TailRowStep(f: CameraFrame, base: seq<byte>, s: seq<byte>, t: seq<byte>, row: int)
    requires f.Readable() && |base| == |s| == |t| == f.StagingLength() && 0 <= row < f.height / 2
    requires Agree(base, s, f.height * f.width + row * f.width, |s|)
    requires Agree(s, t, f.height * f.width + row * f.width + 2 * (f.width / 2), |t|)
    ensures Agree(base, t, f.height * f.width + (row + 1) * f.width, |t|)
  {
    var rowEnd := f.height * f.width + row * f.width + f.width;
    assert f.height * f.width + (row + 1) * f.width == rowEnd;
    assert 2 * (f.width / 2) <= f.width;
    forall i | 0 <= i < |t| && rowEnd <= i
      ensures base[i] == t[i]
    {
      assert s[i] == t[i];
    }
  }

  // ---------------------------------------------------------------------------
  // The copy loops of processFrame, over the staging buffer
  // ---------------------------------------------------------------------------

  /** std::memcpy(dst + dstOff, src + srcOff, n): copies n bytes and touches nothing else. */
  method CopyBytes(dst: array<byte>, dstOff: int, src: seq<byte>, srcOff: int, n: int)
    requires 0 <= n && 0 <= dstOff && dstOff + n <= dst.Length
    requires 0 <= srcOff && (n > 0 ==> srcOff + n <= |src|)
    modifies dst
    ensures forall k :: 0 <= k < dst.Length ==>
      dst[k] == if dstOff <= k < dstOff + n then src[srcOff + k - dstOff] else old(dst[k])
  {
    forall k | dstOff <= k < dstOff + n {
      dst[k] := src[srcOff + k - dstOff];
    }
  }

  /**
   * The Y-plane loop: row y of the plane (`width` bytes from `y * rowStride`)
   * is copied to row y of the packed Y block; nothing past the Y block changes.
   */
  method CopyLuma(yuv: array<byte>, f: CameraFrame)
    requires f.Readable() && yuv.Length == f.StagingLength()
    modifies yuv
    ensures LumaCopied(f, yuv[..], f.height)
    ensures Agree(old(yuv[..]), yuv[..], f.height * f.width, yuv.Length)
  {
    var y := 0;
    while y < f.height
      invariant 0 <= y <= f.height
      invariant LumaCopied(f, yuv[..], y)
      invariant Agree(old(yuv[..]), yuv[..], f.height * f.width, yuv.Length)
    {
      ghost var before := yuv[..];
      MulMonotone(y + 1, f.height, f.width);
      assert (y + 1) * f.width == y * f.width + f.width;
      MulMonotone(y, f.height - 1, f.rowStride);
      CopyBytes(yuv, y * f.width, f.yPlane, y * f.rowStride, f.width);
      LumaRowWritten(f, before, yuv[..], y);
      LumaRowStep(f, before, yuv[..], y);
      y := y + 1;
    }
  }

  /** Storing pair (row, col) extends the row's done prefix by one pair and changes no other byte. */
  lemma ChromaPairStep(f: CameraFrame, s: seq<byte>, t: seq<byte>, row: int, col: int)
    requires f.Readable() && |s| == f.StagingLength() && 0 <= row < f.height / 2 && 0 <= col < f.width / 2
    requires ChromaRowDone(f, s, row, col)
    requires t == s[ChromaDst(f.width, f.height, row, col) := f.vPlane[f.ChromaIndex(row, col)]]
                   [ChromaDst(f.width, f.height, row, col) + 1 := f.uPlane[f.ChromaIndex(row, col)]]
    ensures |t| == |s|
    ensures ChromaRowDone(f, t, row, col + 1)
    ensures Agree(s, t, 0, ChromaDst(f.width, f.height, row, col))
    ensures Agree(s, t, ChromaDst(f.width, f.height, row, col) + 2, |s|)
  {
  }

  /**
   * One pass of the inner chroma loop: for every col < width/2, V then U of
   * pair (row, col) go to bytes 2*col and 2*col + 1 of chroma row `row`; no
   * other byte changes.
   */
  method InterleaveChromaRow(yuv: array<byte>, f: CameraFrame, row: int)
    requires f.Readable() && yuv.Length == f.StagingLength() && 0 <= row < f.height / 2
    modifies yuv
    ensures ChromaRowDone(f, yuv[..], row, f.width / 2)
    ensures Agree(old(yuv[..]), yuv[..], 0, f.height * f.width + row * f.width)
    ensures Agree(old(yuv[..]), yuv[..], f.height * f.width + row * f.width + 2 * (f.width / 2), yuv.Length)
  {
    var col := 0;
    while col < f.width / 2
      invariant 0 <= col <= f.width / 2
      invariant ChromaRowDone(f, yuv[..], row, col)
      invariant Agree(old(yuv[..]), yuv[..], 0, f.height * f.width + row * f.width)
      invariant Agree(old(yuv[..]), yuv[..], f.height * f.width + row * f.width + 2 * col, yuv.Length)
    {
      var idx := row * f.rowStride + col * f.pixelStride;
      assert idx == f.ChromaIndex(row, col);
      var dst := f.height * f.width + row * f.width + col * 2;
      assert dst == ChromaDst(f.width, f.height, row, col);
      ghost var before := yuv[..];
      yuv[dst] := f.vPlane[idx];
      yuv[dst + 1] := f.uPlane[idx];
      ChromaPairStep(f, before, yuv[..], row, col);
      col := col + 1;
    }
  }

  /**
   * The outer chroma loop: every chroma pair is interleaved, V before U, into
   * the rows below the Y block; the Y block and (odd width) the last byte of
   * every chroma row keep their values.
   */
  method InterleaveChroma(yuv: array<byte>, f: CameraFrame)
    requires f.Readable() && yuv.Length == f.StagingLength()
    modifies yuv
    ensures ChromaCopied(f, yuv[..], f.height / 2)
    ensures Agree(old(yuv[..]), yuv[..], 0, f.height * f.width)
    ensures PadsKept(f, yuv[..], old(yuv[..]), f.height / 2)
  {
    var uvHeight := f.height / 2;
    var row := 0;
    while row < uvHeight
      invariant 0 <= row <= uvHeight
      invariant ChromaCopied(f, yuv[..], row)
      invariant Agree(old(yuv[..]), yuv[..], 0, f.height * f.width)
      invariant Agree(old(yuv[..]), yuv[..], f.height * f.width + row * f.width, yuv.Length)
      invariant PadsKept(f, yuv[..], old(yuv[..]), row)
    {
      ghost var before := yuv[..];
      InterleaveChromaRow(yuv, f, row);
      ChromaRowStep(f, before, yuv[..], row);
      PadRowStep(f, old(yuv[..]), before, yuv[..], row);
      TailRowStep(f, old(yuv[..]), before, yuv[..], row);
      MulMonotone(0, row, f.width);
      row := row + 1;
    }
  }

  /** A one-channel matrix of height + height/2 rows of width bytes is the staging buffer. */
  lemma StagingRows(width: int, height: int)
    ensures (height + height / 2) * width * 1 == height * width + (height / 2) * width
  {
  }

  // ---------------------------------------------------------------------------
  // The processor
  // ---------------------------------------------------------------------------

  /**
   * The native processor's staging state: the cached frame dimensions and the
   * four matrices sized from them. `yuvFrame` is the NV21 staging buffer of
   * `height + height/2` rows of `width` bytes; `rgbaFrame` (4 channels once
   * allocated), `grayFrame` and `edgeFrame` are `height` by `width`.
   */
  class OpenCvProcessor {
    var yuvFrame: Mat
    var rgbaFrame: Mat
    var grayFrame: Mat
    var edgeFrame: Mat
    var cachedWidth: int
    var cachedHeight: int

    ghost predicate Valid()
      reads this
    {
      && 0 <= cachedWidth && 0 <= cachedHeight
      && yuvFrame.Valid() && yuvFrame.channels == 1
      && yuvFrame.rows == cachedHeight + cachedHeight / 2 && yuvFrame.cols == cachedWidth
      && yuvFrame.data.Length == cachedHeight * cachedWidth + (cachedHeight / 2) * cachedWidth
      && rgbaFrame.Valid() && rgbaFrame.rows == cachedHeight && rgbaFrame.cols == cachedWidth
      && grayFrame.Valid() && grayFrame.channels == 1
      && grayFrame.rows == cachedHeight && grayFrame.cols == cachedWidth
      && edgeFrame.Valid() && edgeFrame.channels == 1
      && edgeFrame.rows == cachedHeight && edgeFrame.cols == cachedWidth
    }

    /** A new processor caches 0x0 and holds empty (default-constructed) matrices. */
    constructor ()
      ensures Valid()
      ensures cachedWidth == 0 && cachedHeight == 0
      ensures yuvFrame.data.Length == 0 && rgbaFrame.data.Length == 0
      ensures grayFrame.data.Length == 0 && edgeFrame.data.Length == 0
      ensures fresh(yuvFrame) && fresh(yuvFrame.data) && fresh(rgbaFrame) && fresh(rgbaFrame.data)
      ensures fresh(grayFrame) && fresh(grayFrame.data) && fresh(edgeFrame) && fresh(edgeFrame.data)
    {
      yuvFrame := new Mat(0, 0, 1);
      rgbaFrame := new Mat(0, 0, 1);
      grayFrame := new Mat(0, 0, 1);
      edgeFrame := new Mat(0, 0, 1);
      cachedWidth, cachedHeight := 0, 0;
    }

    /**
     * Caches (width, height). With the cached dimensions nothing changes and
     * every matrix is kept; otherwise all four matrices are reallocated for the
     * new dimensions.
     */
    method Initialise(width: int, height: int)
      requires Valid()
      requires 0 <= width && 0 <= height
      modifies this
      ensures Valid()
      ensures cachedWidth == width && cachedHeight == height
      ensures old(cachedWidth) == width && old(cachedHeight) == height ==>
        && yuvFrame == old(yuvFrame) && rgbaFrame == old(rgbaFrame)
        && grayFrame == old(grayFrame) && edgeFrame == old(edgeFrame)
      ensures old(cachedWidth) != width || old(cachedHeight) != height ==>
        && fresh(yuvFrame) && fresh(yuvFrame.data) && fresh(rgbaFrame) && fresh(rgbaFrame.data)
        && fresh(grayFrame) && fresh(grayFrame.data) && fresh(edgeFrame) && fresh(edgeFrame.data)
        && rgbaFrame.channels == 4
    {
      if width == cachedWidth && height == cachedHeight {
        return;
      }
      cachedWidth := width;
      cachedHeight := height;
      StagingRows(width, height);
      yuvFrame := new Mat(height + height / 2, width, 1);
      rgbaFrame := new Mat(height, width, 4);
      grayFrame := new Mat(height, width, 1);
      edgeFrame := new Mat(height, width, 1);
    }

    /**
     * processFrame: initialises for the frame's size, copies the Y plane row by
     * row into the packed Y block, then interleaves V and U below it (NV21: V
     * first). The colour conversion and edge detection that follow (selected by
     * `edgeMode`) may rewrite the other three matrices and are not modelled.
     * Returns the clock reading `steadyClockNs` given by the caller.
     */
    method ProcessFrame(frame: CameraFrame, edgeMode: bool, steadyClockNs: int) returns (timestamp: int)
      requires Valid() && frame.Readable()
      modifies this, yuvFrame.data, rgbaFrame.data, grayFrame.data, edgeFrame.data
      ensures Valid()
      ensures cachedWidth == frame.width && cachedHeight == frame.height
      ensures yuvFrame.rows == frame.height + frame.height / 2 && yuvFrame.cols == frame.width
      ensures yuvFrame.data.Length == frame.StagingLength()
      ensures old(cachedWidth) == frame.width && old(cachedHeight) == frame.height ==>
        && yuvFrame == old(yuvFrame) && rgbaFrame == old(rgbaFrame)
        && grayFrame == old(grayFrame) && edgeFrame == old(edgeFrame)
      ensures old(cachedWidth) != frame.width || old(cachedHeight) != frame.height ==>
        && fresh(yuvFrame) && fresh(yuvFrame.data) && fresh(rgbaFrame) && fresh(rgbaFrame.data)
        && fresh(grayFrame) && fresh(grayFrame.data) && fresh(edgeFrame) && fresh(edgeFrame.data)
      ensures forall y, x :: 0 <= y < frame.height && 0 <= x < frame.width ==>
        yuvFrame.data[LumaDst(frame.width, frame.height, y, x)] == frame.yPlane[frame.LumaIndex(y, x)]
      ensures forall r, c :: 0 <= r < frame.height / 2 && 0 <= c < frame.width / 2 ==>
        && yuvFrame.data[ChromaDst(frame.width, frame.height, r, c)] == frame.vPlane[frame.ChromaIndex(r, c)]
        && yuvFrame.data[ChromaDst(frame.width, frame.height, r, c) + 1] == frame.uPlane[frame.ChromaIndex(r, c)]
      ensures frame.width % 2 == 1 && old(cachedWidth) == frame.width && old(cachedHeight) == frame.height ==>
        forall r :: 0 <= r < frame.height / 2 ==>
          yuvFrame.data[ChromaPad(frame.width, frame.height, r)] ==
          old(yuvFrame.data[ChromaPad(frame.width, frame.height, r)])
      ensures timestamp == steadyClockNs
    {
      Initialise(frame.width, frame.height);
      var yuv := yuvFrame.data;
      ghost var staged := yuv[..];
      CopyLuma(yuv, frame);
      ghost var lumaDone := yuv[..];
      InterleaveChroma(yuv, frame);
      LumaKept(frame, lumaDone, yuv[..]);
      assert PadsKept(frame, yuv[..], staged, frame.height / 2);
      timestamp := steadyClockNs;
    }
  }

  /**
   * A 4x2 frame with row stride 4 and a chroma pixel stride of 2 (as when U
   * and V share one interleaved buffer), staged by processor `p` whatever it
   * staged before: the two packed Y rows, then the single chroma row
   * V0 U0 V2 U2.
   */
  method StageFourByTwoOn(p: OpenCvProcessor, y: seq<byte>, u: seq<byte>, v: seq<byte>)
    returns (staged: seq<byte>)
    requires p.Valid() && |y| == 8 && |u| == 3 && |v| == 3
    modifies p, p.yuvFrame.data, p.rgbaFrame.data, p.grayFrame.data, p.edgeFrame.data
    ensures p.Valid() && p.cachedWidth == 4 && p.cachedHeight == 2
    ensures old(p.cachedWidth) == 4 && old(p.cachedHeight) == 2 ==>
      && p.yuvFrame == old(p.yuvFrame) && p.rgbaFrame == old(p.rgbaFrame)
      && p.grayFrame == old(p.grayFrame) && p.edgeFrame == old(p.edgeFrame)
    ensures old(p.cachedWidth) != 4 || old(p.cachedHeight) != 2 ==>
      && fresh(p.yuvFrame) && fresh(p.yuvFrame.data) && fresh(p.rgbaFrame) && fresh(p.rgbaFrame.data)
      && fresh(p.grayFrame) && fresh(p.grayFrame.data) && fresh(p.edgeFrame) && fresh(p.edgeFrame.data)
    ensures staged == p.yuvFrame.data[..] == y + [v[0], u[0], v[2], u[2]]
  {
    var frame := CameraFrame(y, u, v, 2, 4, 4, 2);
    var timestamp := p.ProcessFrame(frame, false, 0);
    staged := p.yuvFrame.data[..];
    assert |staged| == frame.StagingLength() == 12;
    forall k | 0 <= k < 8
      ensures staged[k] == y[k]
    {
      var r, x := if k < 4 then 0 else 1, if k < 4 then k else k - 4;
      assert LumaDst(4, 2, r, x) == k == frame.LumaIndex(r, x);
    }
    forall c | 0 <= c < 2
      ensures staged[8 + 2 * c] == v[2 * c] && staged[9 + 2 * c] == u[2 * c]
    {
      assert ChromaDst(4, 2, 0, c) == 8 + 2 * c && frame.ChromaIndex(0, c) == 2 * c;
    }
    assert staged[..8] == y;
    assert staged[8..] == [v[0], u[0], v[2], u[2]] by {
      assert staged[8 + 2 * 0] == v[2 * 0] && staged[9 + 2 * 0] == u[2 * 0];
      assert staged[8 + 2 * 1] == v[2 * 1] && staged[9 + 2 * 1] == u[2 * 1];
    }
    assert staged == staged[..8] + staged[8..];
  }

  /** The 4x2 frame above, staged by a new processor. */
  method StageFourByTwo(y: seq<byte>, u: seq<byte>, v: seq<byte>) returns (staged: seq<byte>)
    requires |y| == 8 && |u| == 3 && |v| == 3
    ensures staged == y + [v[0], u[0], v[2], u[2]]
  {
    var p := new OpenCvProcessor();
    staged := StageFourByTwoOn(p, y, u, v);
  }

  /**
   * One processor staging the 4x2 frame, then a 2x2 frame (the size changes,
   * so every matrix is reallocated), then the 4x2 frame again (reallocated
   * once more): the last staging buffer is that of the last frame alone.
   */
  method StageAcrossSizeChanges(y: seq<byte>, u: seq<byte>, v: seq<byte>, small: seq<byte>)
    returns (staged: seq<byte>)
    requires |y| == 8 && |u| == 3 && |v| == 3 && |small| == 4
    ensures staged == y + [v[0], u[0], v[2], u[2]]
  {
    var p := new OpenCvProcessor();
    var first := StageFourByTwoOn(p, y, u, v);
    var t := p.ProcessFrame(CameraFrame(small, small[..1], small[..1], 1, 2, 2, 2), true, 1);
    staged := StageFourByTwoOn(p, y, u, v);
  }
}
