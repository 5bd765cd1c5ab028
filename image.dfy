/** Byte buffers and the dense row-major matrix (cv::Mat) that the native side works on. */
module Image {

  /** An unsigned 8-bit sample (uint8_t, CV_8U). */
  newtype byte = x: int | 0 <= x < 256

  /**
   * A freshly allocated, continuous OpenCV matrix: `rows` rows of `cols`
   * pixels of `channels` bytes each, stored row-major in `data`, so that
   * `ptr(y)` is the byte offset `y * cols * channels`. The header never
   * changes after allocation; only the bytes in `data` do.
   */
  class Mat {
    const rows: nat
    const cols: nat
    const channels: nat
    const data: array<byte>

    ghost predicate Valid() {
      data.Length == rows * cols * channels
    }

    constructor (rows: nat, cols: nat, channels: nat)
      ensures Valid() && fresh(data)
      ensures this.rows == rows && this.cols == cols && this.channels == channels
    {
      this.rows, this.cols, this.channels := rows, cols, channels;
      data := new byte[rows * cols * channels];
    }
  }
}
