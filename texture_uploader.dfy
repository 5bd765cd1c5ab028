/**
 * The GL texture uploader: remembers the texture id to upload into and the
 * size of the last full allocation, and for each processed RGBA image chooses
 * between doing nothing, a full glTexImage2D and a partial glTexSubImage2D.
 */
module TextureUpload {
  import opened Image

  /** An OpenGL object name (GLuint); 0 names no texture. */
  newtype GLuint = x: int | 0 <= x < 0x1_0000_0000

  /**
   * The GL calls the uploader issues. Both image calls target GL_TEXTURE_2D,
   * mip level 0, with RGBA unsigned bytes taken from the image's data.
   */
  datatype GlCall =
    | BindTexture(texture: GLuint)
    | TexImage2D(width: int, height: int, pixels: seq<byte>)
    | TexSubImage2D(xoffset: int, yoffset: int, width: int, height: int, pixels: seq<byte>)

  /** The uploader's three fields. */
  datatype UploaderState = UploaderState(boundTexture: GLuint, lastWidth: int, lastHeight: int)

  /** All three fields start at 0. */
  const InitialState := UploaderState(0, 0, 0)

  /** The outcome of one upload: the fields afterwards and the GL calls issued, in order. */
  datatype Step = Step(next: UploaderState, calls: seq<GlCall>)

  /** How many calls of `calls` (re)allocate texture storage. */
  function FullAllocations(calls: seq<GlCall>): nat {
    if calls == [] then 0
    else (if calls[0].TexImage2D? then 1 else 0) + FullAllocations(calls[1..])
  }

  /** How many calls of `calls` are partial updates. */
  function PartialUpdates(calls: seq<GlCall>): nat {
    if calls == [] then 0
    else (if calls[0].TexSubImage2D? then 1 else 0) + PartialUpdates(calls[1..])
  }

  /** bindTexture: records the id and nothing else. */
  function BindStep(s: UploaderState, textureId: GLuint): (r: UploaderState)
    ensures r.boundTexture == textureId
    ensures r.lastWidth == s.lastWidth && r.lastHeight == s.lastHeight
  {
    s.(boundTexture := textureId)
  }

  /**
   * upload of a `cols` by `rows` image whose bytes are `pixels`: nothing while
   * no texture is bound; otherwise bind it, then allocate afresh when the size
   * differs from the last allocation and update in place when it does not.
   */
  function UploadStep(s: UploaderState, cols: int, rows: int, pixels: seq<byte>): (r: Step)
    ensures r.calls == [] <==> s.boundTexture == 0
    ensures s.boundTexture == 0 ==> r.next == s
    ensures s.boundTexture != 0 ==>
      && |r.calls| == 2 && r.calls[0] == BindTexture(s.boundTexture)
      && r.next == UploaderState(s.boundTexture, cols, rows)
    ensures FullAllocations(r.calls) + PartialUpdates(r.calls) == (if s.boundTexture == 0 then 0 else 1)
    ensures FullAllocations(r.calls) == 1 <==>
      s.boundTexture != 0 && (cols != s.lastWidth || rows != s.lastHeight)
    ensures PartialUpdates(r.calls) == 1 ==> r.calls[1] == TexSubImage2D(0, 0, cols, rows, pixels)
    ensures FullAllocations(r.calls) == 1 ==> r.calls[1] == TexImage2D(cols, rows, pixels)
  {
    if s.boundTexture == 0 then
      Step(s, [])
    else if cols != s.lastWidth || rows != s.lastHeight then
      PairCounts(BindTexture(s.boundTexture), TexImage2D(cols, rows, pixels));
      Step(UploaderState(s.boundTexture, cols, rows),
           [BindTexture(s.boundTexture), TexImage2D(cols, rows, pixels)])
    else
      PairCounts(BindTexture(s.boundTexture), TexSubImage2D(0, 0, cols, rows, pixels));
      Step(s, [BindTexture(s.boundTexture), TexSubImage2D(0, 0, cols, rows, pixels)])
  }

  lemma PairCounts(x: GlCall, y: GlCall)
    ensures FullAllocations([x, y]) == (if x.TexImage2D? then 1 else 0) + (if y.TexImage2D? then 1 else 0)
    ensures PartialUpdates([x, y]) == (if x.TexSubImage2D? then 1 else 0) + (if y.TexSubImage2D? then 1 else 0)
  {
    assert [x, y][1..] == [y];
    assert [y][1..] == [];
    assert FullAllocations([y]) == (if y.TexImage2D? then 1 else 0) + FullAllocations([]);
    assert PartialUpdates([y]) == (if y.TexSubImage2D? then 1 else 0) + PartialUpdates([]);
  }

  /** Successive uploads of `images`, all `cols` by `rows`, from state s. */
  function UploadRun(s: UploaderState, cols: int, rows: int, images: seq<seq<byte>>): Step
    decreases |images|
  {
    if images == [] then Step(s, [])
    else
      var first := UploadStep(s, cols, rows, images[0]);
      var rest := UploadRun(first.next, cols, rows, images[1..]);
      Step(rest.next, first.calls + rest.calls)
  }

  lemma FullAllocationsAppend(a: seq<GlCall>, b: seq<GlCall>)
    ensures FullAllocations(a + b) == FullAllocations(a) + FullAllocations(b)
    ensures PartialUpdates(a + b) == PartialUpdates(a) + PartialUpdates(b)
  {
    if a == [] {
      assert a + b == b;
    } else {
      assert (a + b)[1..] == a[1..] + b;
      FullAllocationsAppend(a[1..], b);
    }
  }

  /**
   * Whether an upload allocates or updates depends on the size only: binding
   * any two nonzero ids before the same upload gives the same kind of call.
   */
  lemma ChoiceIgnoresTexture(s: UploaderState, a: GLuint, b: GLuint, cols: int, rows: int, pixels: seq<byte>)
    requires a != 0 && b != 0
    ensures UploadStep(BindStep(s, a), cols, rows, pixels).calls[1..] ==
            UploadStep(BindStep(s, b), cols, rows, pixels).calls[1..]
    ensures UploadStep(BindStep(s, a), cols, rows, pixels).next.lastWidth ==
            UploadStep(BindStep(s, b), cols, rows, pixels).next.lastWidth
    ensures UploadStep(BindStep(s, a), cols, rows, pixels).next.lastHeight ==
            UploadStep(BindStep(s, b), cols, rows, pixels).next.lastHeight
  {
  }

  /**
   * After an upload into a texture, rebinding a different (nonzero) texture
   * and uploading an image of the same size takes the partial path.
   */
  lemma RebindSameSizeIsPartial(s: UploaderState, other: GLuint, cols: int, rows: int,
                                first: seq<byte>, second: seq<byte>)
    requires s.boundTexture != 0 && other != 0
    ensures var s1 := BindStep(UploadStep(s, cols, rows, first).next, other);
      UploadStep(s1, cols, rows, second).calls == [BindTexture(other), TexSubImage2D(0, 0, cols, rows, second)]
  {
  }

  /**
   * A run of n equal-size uploads into a bound texture, each of its own
   * image, issues exactly n binds in total, at most one full allocation (the
   * first upload's, and only when the size changed), and partial updates of
   * each later image in turn.
   */
  lemma {:induction false} EqualSizeRunAllocatesOnce(s: UploaderState, cols: int, rows: int,
                                                      images: seq<seq<byte>>)
    requires s.boundTexture != 0
    ensures var run := UploadRun(s, cols, rows, images);
      && |run.calls| == 2 * |images|
      && FullAllocations(run.calls) ==
         (if |images| > 0 && (cols != s.lastWidth || rows != s.lastHeight) then 1 else 0)
      && FullAllocations(run.calls) + PartialUpdates(run.calls) == |images|
      && (|images| > 0 ==> run.next == UploaderState(s.boundTexture, cols, rows))
      && forall k :: 2 <= k < |run.calls| ==>
           run.calls[k] == if k % 2 == 0 then BindTexture(s.boundTexture)
                           else TexSubImage2D(0, 0, cols, rows, images[k / 2])
    decreases |images|
  {
    if images != [] {
      var first := UploadStep(s, cols, rows, images[0]);
      var rest := UploadRun(first.next, cols, rows, images[1..]);
      EqualSizeRunAllocatesOnce(first.next, cols, rows, images[1..]);
      FullAllocationsAppend(first.calls, rest.calls);
      if |images| > 1 {
        var again := UploadStep(first.next, cols, rows, images[1]);
        assert FullAllocations(again.calls) == 0;
        assert rest.calls[..2] == again.calls;
      }
      var all := first.calls + rest.calls;
      forall k | 2 <= k < |all|
        ensures all[k] == if k % 2 == 0 then BindTexture(s.boundTexture)
                          else TexSubImage2D(0, 0, cols, rows, images[k / 2])
      {
        assert all[k] == rest.calls[k - 2];
        assert images[1..][(k - 2) / 2] == images[k / 2];
        if k - 2 < 2 {
          var again := UploadStep(first.next, cols, rows, images[1]);
          assert rest.calls[k - 2] == again.calls[k - 2];
        }
      }
    }
  }

  /**
   * GlTextureUploader: the id to upload into and the size of the last full
   * allocation, with every GL call it has issued recorded in `calls`.
   */
  class GlTextureUploader {
    var boundTexture: GLuint
    var lastWidth: int
    var lastHeight: int
    ghost var calls: seq<GlCall>

    function State(): UploaderState
      reads this
    {
      UploaderState(boundTexture, lastWidth, lastHeight)
    }

    constructor ()
      ensures State() == InitialState && calls == []
    {
      boundTexture, lastWidth, lastHeight := 0, 0, 0;
      calls := [];
    }

    /** bindTexture: records the id; issues no GL call. */
    method BindTexture(textureId: GLuint)
      modifies this
      ensures State() == BindStep(old(State()), textureId)
      ensures calls == old(calls)
    {
      boundTexture := textureId;
    }

    /** upload of an RGBA image, as UploadStep says. */
    method Upload(rgba: Mat)
      modifies this
      ensures State() == UploadStep(old(State()), rgba.cols, rgba.rows, rgba.data[..]).next
      ensures calls == old(calls) + UploadStep(old(State()), rgba.cols, rgba.rows, rgba.data[..]).calls
    {
      if boundTexture == 0 {
        return;
      }
      calls := calls + [GlCall.BindTexture(boundTexture)];
      if rgba.cols != lastWidth || rgba.rows != lastHeight {
        calls := calls + [TexImage2D(rgba.cols, rgba.rows, rgba.data[..])];
        lastWidth := rgba.cols;
        lastHeight := rgba.rows;
      } else {
        calls := calls + [TexSubImage2D(0, 0, rgba.cols, rgba.rows, rgba.data[..])];
      }
    }
  }
}
