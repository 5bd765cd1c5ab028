# Edge viewer frame pipeline: a verified Dafny model

Edge viewer is an Android app. Camera frames in YUV_420_888 layout go through a native
OpenCV pipeline (optionally Canny edge detection), and the RGBA result is drawn through an
OpenGL ES texture. Three parts of it carry logic that can be stated exactly. This project models
those three parts and proves what they promise.

- **`OpenCvStaging`** (`opencv_processor.dfy`, using `Image` from `image.dfy`). This is the native
  `OpenCvProcessor`. `Initialise` caches the frame size and reallocates the four matrices only
  when the size changes. `ProcessFrame` stages a camera frame into one NV21 buffer of
  `height + height/2` rows of `width` bytes. It copies the Y plane one row at a time from its
  strided source (a `memcpy` per row). It then interleaves V and U beneath, V first, reading both
  at `row*rowStride + col*pixelStride`. The matrices are a `Mat` class over a byte `array`. The
  copy loops are `while` loops over that array, proved against predicates on snapshots of it.
  Lemmas about the index arithmetic show three things:
  - no store overwrites another;
  - every byte of the buffer is written, except for the last byte of each chroma row when the
    width is odd;
  - that byte is left as it was.
- **`TextureUpload`** (`texture_uploader.dfy`). This is the native `GlTextureUploader`: a texture
  id and the size of the last full allocation. `UploadStep` is a pure reference definition of
  one upload. It returns the next state and the GL calls issued (`BindTexture`, `TexImage2D`,
  `TexSubImage2D`). The class `GlTextureUploader` has the source's three fields and a ghost log
  of GL calls, and its methods are proved against that definition. Lemmas cover:
  - the choice between full and partial upload: it depends only on size;
  - rebinding a texture;
  - runs of equal-size uploads of changing images: one full allocation at most, and only first,
    with each later image sent by a partial update.
- **`Ingestion`** (`frame_processor.dfy`). This is the Kotlin `FrameProcessor`: a run flag, the
  completion timestamp of the latest frame, the last frame rate and the frame size. The native
  engine is abstract: its calls are appended to a ghost log, and the timestamp it returns is a
  parameter. The pure queries `IsRunning`, `HasFrame`, `LastFps` and `FrameSize` are functions
  over the fields. The constructor's contract and the scenario methods are stated through them.
  The other methods' contracts use both the queries and the fields, because the queries do not
  expose every field (the timestamp itself, for one). `Fps` is the frame-rate rule, computed in real arithmetic. A few
  scenario methods check concrete runs from start to drain.

Clock readings are method parameters:
- the steady clock at the end of `processFrame`;
- `SystemClock.elapsedRealtimeNanos` in `drainToTexture`.

One might expect a drain before any frame has been submitted to yield 0. The code measures from
the initial timestamp 0 instead, so such a drain yields `1e9 / now`, which is positive. The model
follows the code, and `Ingestion.DrainBeforeAnyFrame` states that behaviour. For the same reason, a frame completing exactly at clock reading 0
leaves `HasFrame` false (`Ingestion.ThirtyFramesPerSecond`).

## Model

| member | source | states |
|---|---|---|
| OpenCvStaging.OpenCvProcessor.constructor | jni/src/opencv_processor.hpp:21-26 | A new processor caches 0×0 and holds four empty, freshly allocated matrices. |
| OpenCvStaging.StageFourByTwo | jni/src/opencv_processor.cpp:32-51 | For a new processor and a 4×2 frame with row stride 4 and pixel stride 2, the staging buffer is the 8 Y bytes followed by V0 U0 V2 U2. |
| OpenCvStaging.StageFourByTwoOn | jni/src/opencv_processor.cpp:12-51 | Whatever frame a processor staged before, staging the 4×2 frame leaves it caching 4×2, with its matrices kept if it already cached 4×2 and all freshly allocated otherwise, and its staging buffer is the 8 Y bytes followed by V0 U0 V2 U2. |
| OpenCvStaging.StageAcrossSizeChanges | jni/src/opencv_processor.cpp:12-51 | One processor stages a 4×2 frame, a 2×2 frame and the 4×2 frame again. Each size change reallocates the matrices, and the final staging buffer is the last frame's 8 Y bytes followed by V0 U0 V2 U2. |
| OpenCvStaging.OpenCvProcessor.Initialise | jni/src/opencv_processor.cpp:12-22 | Afterwards the cached size is (width, height). With the cached size, all four matrices are kept. Otherwise all four are fresh: a staging matrix of `h + h/2` rows by `w` with one channel and exactly `h*w + (h/2)*w` bytes, a four-channel `h×w` rgba matrix, and one-channel `h×w` gray and edge matrices. |
| OpenCvStaging.OpenCvProcessor.ProcessFrame | jni/src/opencv_processor.cpp:24-51 | First initialises for the frame's size, so the staging matrix has `h + h/2` rows of `w` bytes, and all four matrices are kept when the size is unchanged and all four are freshly allocated when it changes, so the processor can stage any later frame. Returns the given clock reading. Afterwards: <br>• `yuv[y*w + x] == Y[y*rowStride + x]` for every pixel; <br>• for every `row < h/2` and `col < w/2`, the bytes at `h*w + row*w + 2*col` and the next index are `V[i]` and `U[i]`, with `i == row*rowStride + col*pixelStride`; <br>• with an odd width and a kept buffer, the last byte of each chroma row is unchanged. |
| OpenCvStaging.CameraFrame.StagingLength | jni/src/opencv_processor.cpp:18 | The staging buffer's `(h + h/2)` rows of `w` bytes hold at least the `h*w` Y block. |
| OpenCvStaging.CameraFrame.LumaIndex | jni/src/opencv_processor.cpp:38 | Under the plane-length preconditions, the Y source offset `y*rowStride + x` is inside the Y plane. |
| OpenCvStaging.CameraFrame.ChromaIndex | jni/src/opencv_processor.cpp:47-49 | Under the plane-length preconditions, `row*rowStride + col*pixelStride` is inside both the U and the V plane. |
| OpenCvStaging.LumaDst | jni/src/opencv_processor.cpp:35-39 | The destination `y*w + x` of a Y copy lies in the Y block `[0, h*w)`. |
| OpenCvStaging.ChromaDst | jni/src/opencv_processor.cpp:43-49 | Both bytes of a V/U store lie in the chroma block `[h*w, h*w + (h/2)*w)`. |
| OpenCvStaging.ChromaPad | jni/src/opencv_processor.cpp:43-46 | The last byte of chroma row `row` lies in the chroma block. |
| OpenCvStaging.LumaStoresDistinct | jni/src/opencv_processor.cpp:35-40 | Distinct pixels are copied to distinct bytes. |
| OpenCvStaging.ChromaStoresDistinct | jni/src/opencv_processor.cpp:45-51 | The four bytes written for two distinct chroma samples are pairwise different, so no store overwrites another. |
| OpenCvStaging.OddWidthPadUntouched | jni/src/opencv_processor.cpp:46-50 | With an odd width, the last byte of each chroma row is neither a Y store nor a V or U store. |
| OpenCvStaging.LumaCoverage | jni/src/opencv_processor.cpp:35-40 | Every byte of the Y block is the store of the pixel at its row and column. |
| OpenCvStaging.ChromaCoverage | jni/src/opencv_processor.cpp:43-51 | Every byte of the chroma block lies at some column of a chroma row `< h/2`. |
| OpenCvStaging.StagingCoverage | jni/src/opencv_processor.cpp:18-51 | Every byte of the staging buffer is a Y store, a V or U store, or (odd width only) the last byte of a chroma row. |
| OpenCvStaging.CopyBytes | jni/src/opencv_processor.cpp:36-39 | `memcpy`: the `n` destination bytes from `dstOff` take the source bytes from `srcOff`, and every other byte is unchanged. |
| OpenCvStaging.CopyLuma | jni/src/opencv_processor.cpp:35-40 | After the row loop, every pixel of the Y block holds its strided Y sample, and the chroma block is unchanged. |
| OpenCvStaging.InterleaveChromaRow | jni/src/opencv_processor.cpp:46-50 | After the column loop, chroma row `row` holds its V/U pairs, and every byte outside the pairs of that row is unchanged. |
| OpenCvStaging.InterleaveChroma | jni/src/opencv_processor.cpp:43-51 | After the row loop, every chroma pair holds its V then U sample. The Y block is unchanged, and so are the odd-width pad bytes. |
| TextureUpload.BindStep | jni/src/gl_texture_uploader.cpp:3-5 | Binding records the id and keeps both recorded dimensions. |
| TextureUpload.UploadStep | jni/src/gl_texture_uploader.cpp:7-40 | There are no GL calls exactly when the bound id is 0, and then the state is unchanged. Otherwise: <br>• exactly two calls, the first binding that id; <br>• the recorded size becomes (cols, rows); <br>• one full allocation exactly when the size differs from the recorded one, else one partial update at (0,0) of cols×rows, both with the image's bytes. |
| TextureUpload.ChoiceIgnoresTexture | jni/src/gl_texture_uploader.cpp:3-13 | For any two nonzero ids bound to the same state, an upload issues the same image call and records the same size. |
| TextureUpload.RebindSameSizeIsPartial | jni/src/gl_texture_uploader.cpp:3-39 | After an upload, rebinding another nonzero id and uploading a same-size image binds that id and updates in place. |
| TextureUpload.EqualSizeRunAllocatesOnce | jni/src/gl_texture_uploader.cpp:13-39 | `n` uploads of equal-size images, each with its own contents, into a bound texture issue `2n` calls: <br>• one image call per upload; <br>• a full allocation only on the first upload, and only if the size changed; <br>• after the first upload, alternating binds and partial updates, the `k`-th update carrying the `k`-th image's bytes; <br>• the recorded size ends as the images'. |
| TextureUpload.GlTextureUploader.constructor | jni/src/gl_texture_uploader.hpp:12-14 | The id and both dimensions start at 0, and the log is empty. |
| TextureUpload.GlTextureUploader.BindTexture | jni/src/gl_texture_uploader.cpp:3-5 | The fields change as `BindStep` says, and no GL call is issued. |
| TextureUpload.GlTextureUploader.Upload | jni/src/gl_texture_uploader.cpp:7-40 | The fields and the appended GL calls are those of `UploadStep` for the image's cols, rows and bytes. |
| Ingestion.Fps | app/src/main/java/com/example/edgeviewer/FrameProcessor.kt:60-63 | The rate is never negative. It is positive exactly when time has passed since the frame, and then `fps * delta == 1e9`. |
| Ingestion.FrameProcessor.IsRunning | app/src/main/java/com/example/edgeviewer/FrameProcessor.kt:74 | The run flag. It is false after the constructor, true after every `Start` and false after every `Stop` (their contracts). |
| Ingestion.FrameProcessor.HasFrame | app/src/main/java/com/example/edgeviewer/FrameProcessor.kt:72 | True exactly when the stored timestamp is nonzero. It is false after the constructor, and `Stop`, `Start` and `DrainToTexture` keep the timestamp it depends on (their contracts). |
| Ingestion.FrameProcessor.LastFps | app/src/main/java/com/example/edgeviewer/FrameProcessor.kt:68 | The stored rate. It is 0 after the constructor, set only by a running `DrainToTexture` and kept by `Stop` (their contracts). |
| Ingestion.FrameProcessor.FrameSize | app/src/main/java/com/example/edgeviewer/FrameProcessor.kt:70 | The stored (width, height). It is (0, 0) after the constructor, set by `UpdateFrameSize` and by a `Start` from stopped, and kept by the other methods (their contracts). |
| Ingestion.FrameProcessor.constructor | app/src/main/java/com/example/edgeviewer/FrameProcessor.kt:14-18 | Starts stopped, with no frame, rate 0 and size (0, 0). |
| Ingestion.FrameProcessor.Start | app/src/main/java/com/example/edgeviewer/FrameProcessor.kt:20-25 | Afterwards the processor is running. When it was already running, nothing else changes. Otherwise the engine is initialised once with (width, height), and that becomes the frame size. |
| Ingestion.FrameProcessor.Stop | app/src/main/java/com/example/edgeviewer/FrameProcessor.kt:27-30 | Always clears the flag and releases the engine. Timestamp, rate and size are unchanged. |
| Ingestion.FrameProcessor.ProcessDirect | app/src/main/java/com/example/edgeviewer/FrameProcessor.kt:32-55 | While stopped, nothing changes. While running, the planes go to the engine with the stored frame size, and the returned timestamp replaces the stored one. |
| Ingestion.FrameProcessor.DrainToTexture | app/src/main/java/com/example/edgeviewer/FrameProcessor.kt:57-66 | While stopped, returns 0 and nothing changes. While running, uploads once, returns `Fps(now, timestamp)` and stores it as the last rate. The result is never negative. |
| Ingestion.FrameProcessor.UpdateFrameSize | app/src/main/java/com/example/edgeviewer/FrameProcessor.kt:76-79 | Sets the frame size whether or not the processor is running; nothing else changes. |
| Ingestion.ThirtyFramesPerSecond | app/src/main/java/com/example/edgeviewer/FrameProcessor.kt:20-72 | start(1280, 720), then a frame at 0 and a drain at 33 ms: the rate is between 30.30 and 30.31, and no frame is reported. |
| Ingestion.DrainBeforeAnyFrame | app/src/main/java/com/example/edgeviewer/FrameProcessor.kt:57-66 | A drain after start with no frame yet yields `1e9 / now`, which is positive. |
| Ingestion.LatestFrameWins | app/src/main/java/com/example/edgeviewer/FrameProcessor.kt:40-65 | After two frames, the drained rate is measured from the second frame's timestamp. |
| Ingestion.StartTwiceStopTwice | app/src/main/java/com/example/edgeviewer/FrameProcessor.kt:20-30 | Two starts and two stops: one initialisation with the first size and two releases. The processor ends stopped, with the first size. |

## Left out

- The colour conversion, blur and Canny edge detection in `processFrame` are OpenCV library calls. The `edgeMode` choice between them is left out with them. `ProcessFrame` gives the rgba, gray and edge matrices up for modification without saying what they hold.
- OpenCvStaging.OpenCvProcessor.ProcessFrame: the model returns normally on every readable frame, including frames the NV21-to-RGBA conversion at line 53 rejects. OpenCV's conversion throws when the source is empty, the width is odd or the `h + h/2` rows are not a multiple of 3. That covers every zero size, odd width and odd height, and nothing in the native glue catches the exception. The odd-width pad facts therefore describe the staging loops alone, not a state the program returns in.
- OpenCvStaging.OpenCvProcessor.ProcessFrame: the pad bytes of an odd width are stated unchanged only when the buffer is kept. A freshly allocated `cv::Mat` is uninitialised, while a fresh Dafny array's contents are left unspecified here.
- OpenCvStaging.OpenCvProcessor.Initialise: negative sizes are excluded by its precondition. `cv::Mat` rejects them at run time, and that failure is not modelled.
- OpenCvStaging.CameraFrame.Readable: the strides must be nonnegative, and the planes must be long enough for every read. The source does not check either; out-of-range reads there are undefined behaviour.
- The 32-bit `int` index arithmetic in `processFrame` is modelled with unbounded integers, so overflow on huge frames is not captured.
- OpenCvStaging.OpenCvProcessor.ProcessFrame: the steady-clock reading is a parameter, returned unchanged.
- `jni/src/native_pipeline.cpp` is not part of this model. It holds the JNI glue, the global mutex, `GetDirectBufferAddress` (with the null-buffer path returning timestamp 0) and the `rgba()` hand-off to the uploader. Ingestion treats the engine as abstract: calls are logged, and any non-negative timestamp, including 0, may come back.
- TextureUpload.GlTextureUploader.Upload: the GL calls are records of their arguments. GL's effect on the texture, its errors and the `GLuint` cast of a Kotlin `Int` are not modelled.
- Ingestion.Fps: the division is exact real arithmetic, not double-precision.
- Ingestion.FrameProcessor.DrainToTexture: `SystemClock.elapsedRealtimeNanos` is the parameter `nowNs`.
- Ingestion.FrameProcessor: the atomics and the thread split between the camera and render sides are modelled as sequential field updates. `ByteBuffer.rewind` has no counterpart, because the planes are immutable sequences.
- The camera controller, GL renderer and render thread, main activity, JNI facade, build files and web viewer are not part of this model. They hold device, GL, UI and threading plumbing.
