# Spectaculum GLUtils, modelled in Dafny

This project models `GLUtils`, the static helper class of Spectaculum-Core that
every renderer uses around a current OpenGL ES context:

- the **error-queue helpers** `checkError(operation, throwException)`,
  `checkError(operation)` and `clearError()`. They pop `glGetError` until it
  reports `GL_NO_ERROR`, log one message per error, and throw a
  `RuntimeException` carrying the last message;
- the **extension query** `getExtensions()` (the `GL_EXTENSIONS` string split
  at single spaces, with Java's `String.split` semantics) and
  `checkExtension(query)` (a scan with early return);
- **`init()`**, which sets the five static feature flags. The float
  framebuffer flag is set to true before a probe framebuffer is built, and is
  rolled back and the error queue cleared when the probe fails;
- **`getFrameBuffer(width, height)`**: the `glReadPixels` read-back into a
  `width * height * 4` byte buffer, the error check, the copy into a bitmap,
  and the `setRotate(180)` / `postScale(-1, 1)` matrix that turns the bitmap
  upright;
- **`Matrix.setRotateEulerM`**: the 16 coefficients it writes from `rmOffset`
  on.

The GLES context is a class (`GlContext.Context`). It has a mutable queue of
pending errors and a constant `Driver` record that stands for everything the
context reports:

- the `GL_EXTENSIONS` and `GL_RENDERER` strings, either of which may be null;
- the SDK level;
- the colour buffer;
- whether a float framebuffer attachment works;
- the errors the driver raises.

The static flags form a class too (`GLUtils.FeatureFlags`), because `init`
assigns them one by one.

Files:

- `wrappers.dfy`: `Option`.
- `java_lang.dfy`: `String.split(" ")`, `toLowerCase`, `contains` and `String.format("0x%X", int)`.
- `pixels.dfy`: the RGBA byte packing of `glReadPixels` and `copyPixelsFromBuffer`.
- `android_matrix.dfy`: the `setRotate` / `postScale` matrices used here.
- `orientation.dfy`: `Bitmap.createBitmap` with such a matrix.
- `gl_context.dfy`: the context.
- `gl_utils.dfy`: `GLUtils` itself.
- `gl_matrix.dfy`: `setRotateEulerM`.

The comment in `getFrameBuffer` calls the transformation a horizontal flip.
The matrix maps (x, y) to (x, −y), so it is a flip about the horizontal axis:
row y becomes row height−1−y and columns stay put. The model proves that
reading.

## Model

| member | source | states |
|---|---|---|
| GLUtils.CheckError | Spectaculum-Core/src/main/java/net/protyposis/android/spectaculum/gles/GLUtils.java:83-97 | the queue is empty afterwards; one log line per pending error, each `"GL ERROR 0x" + upper-case hex + " @ " + operation`; throws iff `throwException` and an error was pending, with the message of the last error only |
| GLUtils.CheckErrorOrThrow | Spectaculum-Core/src/main/java/net/protyposis/android/spectaculum/gles/GLUtils.java:99-101 | queue emptied; one log line per pending error, line i being the message of the i-th pending error under the given operation; throws exactly when the queue was non-empty, with the last error's message |
| GLUtils.ClearError | Spectaculum-Core/src/main/java/net/protyposis/android/spectaculum/gles/GLUtils.java:103-105 | never throws; queue emptied; logs every pending error under "error clearance" |
| GLUtils.ErrorMessageRoundTrip | Spectaculum-Core/src/main/java/net/protyposis/android/spectaculum/gles/GLUtils.java:89 | the logged message determines the error code (negative codes included, printed as unsigned 32-bit hex) and the operation |
| JavaLang.HexString | Spectaculum-Core/src/main/java/net/protyposis/android/spectaculum/gles/GLUtils.java:89 | `%X` output is non-empty, all upper-case hex digits, no leading zero |
| JavaLang.ParseHexString | Spectaculum-Core/src/main/java/net/protyposis/android/spectaculum/gles/GLUtils.java:89 | reading the `%X` digits back gives the number |
| JavaLang.Unsigned32 | Spectaculum-Core/src/main/java/net/protyposis/android/spectaculum/gles/GLUtils.java:89 | `%X` prints an int as its two's-complement value: in [0, 2^32) and congruent modulo 2^32 |
| GLUtils.GetExtensions | Spectaculum-Core/src/main/java/net/protyposis/android/spectaculum/gles/GLUtils.java:107-113 | null string gives no names; "" gives [""]; no name contains a space; the names are exactly `split(" ")`'s tokens: the leading space-separated fields, every dropped field is empty, and the last kept name is non-empty for a non-empty string |
| JavaLang.Split | Spectaculum-Core/src/main/java/net/protyposis/android/spectaculum/gles/GLUtils.java:110 | `split(" ")` is the fields with trailing empty ones removed (a string without a space is returned whole); no token holds a space |
| JavaLang.Fields | Spectaculum-Core/src/main/java/net/protyposis/android/spectaculum/gles/GLUtils.java:110 | there is at least one field |
| JavaLang.TrimTrailingEmpty | Spectaculum-Core/src/main/java/net/protyposis/android/spectaculum/gles/GLUtils.java:110 | drops exactly the trailing empty strings: a prefix, only "" dropped, last kept item non-empty |
| JavaLang.FieldsJoin | Spectaculum-Core/src/main/java/net/protyposis/android/spectaculum/gles/GLUtils.java:110 | joining the fields with single spaces gives the string back, and no field holds a space |
| JavaLang.FieldsUnique | Spectaculum-Core/src/main/java/net/protyposis/android/spectaculum/gles/GLUtils.java:110 | splitting a join of space-free fields gives those fields back |
| JavaLang.FieldIffDelimited | Spectaculum-Core/src/main/java/net/protyposis/android/spectaculum/gles/GLUtils.java:110 | a space-free string is a field iff it occurs bounded by spaces or string ends |
| JavaLang.SplitMemberIffDelimited | Spectaculum-Core/src/main/java/net/protyposis/android/spectaculum/gles/GLUtils.java:110 | the same for the tokens `split` keeps, for a non-empty query |
| GLUtils.CheckExtension | Spectaculum-Core/src/main/java/net/protyposis/android/spectaculum/gles/GLUtils.java:118-125 | true iff the query equals one of the names getExtensions returns |
| GLUtils.CheckExtensionIsExact | Spectaculum-Core/src/main/java/net/protyposis/android/spectaculum/gles/GLUtils.java:118-125 | a non-empty space-free query is supported iff it occurs as a whole space-delimited token (no prefix or substring matches); never with a null string or a query holding a space |
| GLUtils.FeatureFlags.constructor | Spectaculum-Core/src/main/java/net/protyposis/android/spectaculum/gles/GLUtils.java:42-46 | the five static flags start out false |
| GLUtils.Init | Spectaculum-Core/src/main/java/net/protyposis/android/spectaculum/gles/GLUtils.java:51-72 | the flags end as `Detect` of the driver and the previous flags; a null renderer throws NullPointerException after the first three flags; the error queue is cleared exactly when the probe ran and failed |
| GLUtils.DetectedFlags | Spectaculum-Core/src/main/java/net/protyposis/android/spectaculum/gles/GLUtils.java:52-71 | after a completed init: GLES 3.0 iff SDK ≥ 18; each texture flag iff the extension string is non-null and holds its name as a whole token (both false for a null string); Tegra iff "tegra" occurs in the renderer in any case mix; float framebuffer support is the probe's result, or unchanged when no float texture extension is advertised |
| GLUtils.DetectIsIdempotent | Spectaculum-Core/src/main/java/net/protyposis/android/spectaculum/gles/GLUtils.java:51-72 | calling init again on the same context leaves the flags unchanged |
| JavaLang.ToLowerCase | Spectaculum-Core/src/main/java/net/protyposis/android/spectaculum/gles/GLUtils.java:55 | same length, each character lowered |
| JavaLang.LowerContainsIffIgnoringCase | Spectaculum-Core/src/main/java/net/protyposis/android/spectaculum/gles/GLUtils.java:55 | `s.toLowerCase().contains(t)` for a lower-case word t holds iff t occurs in s ignoring case |
| GlContext.Context.GetError | Spectaculum-Core/src/main/java/net/protyposis/android/spectaculum/gles/GLUtils.java:88 | `glGetError` pops the oldest pending error, or returns GL_NO_ERROR on an empty queue |
| GlContext.Context.NewProbeFramebuffer | Spectaculum-Core/src/main/java/net/protyposis/android/spectaculum/gles/GLUtils.java:64-65 | the probe framebuffer succeeds unless it has a float attachment the driver cannot render to; failure leaves the driver's errors pending |
| GlContext.Context.ReadPixels | Spectaculum-Core/src/main/java/net/protyposis/android/spectaculum/gles/GLUtils.java:140-141 | fills the buffer with the window's RGBA bytes, bottom row first, and queues the read's errors |
| Pixels.WindowBytes | Spectaculum-Core/src/main/java/net/protyposis/android/spectaculum/gles/GLUtils.java:140-141 | the read-back is exactly width * height * 4 bytes |
| Pixels.WindowBytesAt | Spectaculum-Core/src/main/java/net/protyposis/android/spectaculum/gles/GLUtils.java:141 | channel c of pixel (x, y) is at byte (y * width + x) * 4 + c |
| Pixels.CopyPixelsFromBuffer | Spectaculum-Core/src/main/java/net/protyposis/android/spectaculum/gles/GLUtils.java:147-148 | a well-formed width × height bitmap |
| Pixels.ReadBackPixel | Spectaculum-Core/src/main/java/net/protyposis/android/spectaculum/gles/GLUtils.java:140-148 | bitmap pixel (x, y) before the flip is window pixel (x, y): upside down |
| AndroidMatrix.SetRotate | Spectaculum-Core/src/main/java/net/protyposis/android/spectaculum/gles/GLUtils.java:152 | a rotation by a multiple of 90°: the images of the unit vectors |
| AndroidMatrix.PostScale | Spectaculum-Core/src/main/java/net/protyposis/android/spectaculum/gles/GLUtils.java:153 | the ±1 scale is applied after the matrix |
| AndroidMatrix.UprightMatrix | Spectaculum-Core/src/main/java/net/protyposis/android/spectaculum/gles/GLUtils.java:151-153 | rotate 180 then postScale(-1, 1) maps (x, y) to (x, −y) and swaps no axes |
| Orientation.CreateBitmap | Spectaculum-Core/src/main/java/net/protyposis/android/spectaculum/gles/GLUtils.java:154 | the result is a well-formed bitmap of the source's size |
| Orientation.CreateBitmapMapsCentres | Spectaculum-Core/src/main/java/net/protyposis/android/spectaculum/gles/GLUtils.java:154 | each destination pixel is the source pixel whose centre the matrix maps onto it |
| Orientation.UprightIsVerticalFlip | Spectaculum-Core/src/main/java/net/protyposis/android/spectaculum/gles/GLUtils.java:150-154 | output pixel (x, y) is input pixel (x, height−1−y): a vertical flip, columns unchanged |
| Orientation.UprightTwice | Spectaculum-Core/src/main/java/net/protyposis/android/spectaculum/gles/GLUtils.java:150-154 | flipping twice gives the bitmap back |
| Orientation.UprightReadBack | Spectaculum-Core/src/main/java/net/protyposis/android/spectaculum/gles/GLUtils.java:140-154 | the returned bitmap's row y is window row height−1−y: the image is upright |
| GLUtils.GetFrameBuffer | Spectaculum-Core/src/main/java/net/protyposis/android/spectaculum/gles/GLUtils.java:137-159 | queue emptied; any pending error (old or from the read) throws with the last one's message before a bitmap exists; a zero size throws IllegalArgumentException; otherwise a width × height bitmap whose pixel (x, y) is window pixel (x, height−1−y) |
| GLMatrix.SetRotateEulerM | Spectaculum-Core/src/main/java/net/protyposis/android/spectaculum/gles/GLUtils.java:205-226 | the 16 entries from rmOffset on are the homogeneous form of Rx · Ry · Rz, listed row by row (entry 4i + j is row i, column j); every other entry is unchanged |
| GLMatrix.WriteRow | Spectaculum-Core/src/main/java/net/protyposis/android/spectaculum/gles/GLUtils.java:208-211 | four consecutive writes of one matrix row; nothing else changes |
| GLMatrix.Homogeneous | Spectaculum-Core/src/main/java/net/protyposis/android/spectaculum/gles/GLUtils.java:211-226 | entries 3, 7, 11, 12, 13, 14 are 0 and entry 15 is 1 |
| GLMatrix.EulerRotationEntries | Spectaculum-Core/src/main/java/net/protyposis/android/spectaculum/gles/GLUtils.java:205-222 | the coefficients written are exactly those of Rx · Ry · Rz, read row by row |
| GLMatrix.ZeroAnglesGiveIdentity | Spectaculum-Core/src/main/java/net/protyposis/android/spectaculum/gles/GLUtils.java:208-226 | all sines 0 and cosines 1 give the identity |
| GLMatrix.YAxisAloneGivesRotateY | Spectaculum-Core/src/main/java/net/protyposis/android/spectaculum/gles/GLUtils.java:187-195 | a rotation about Y alone gives exactly Ry (the case the replaced Android routine gets wrong) |
| GLMatrix.MulAssociative | Spectaculum-Core/src/main/java/net/protyposis/android/spectaculum/gles/GLUtils.java:208-226 | matrix product is associative (used to compose the rotations) |
| GLMatrix.ProductOfOrthonormal | Spectaculum-Core/src/main/java/net/protyposis/android/spectaculum/gles/GLUtils.java:208-226 | a product of orthonormal matrices is orthonormal |
| GLMatrix.EulerRotationIsOrthonormal | Spectaculum-Core/src/main/java/net/protyposis/android/spectaculum/gles/GLUtils.java:199-226 | when each sine/cosine pair lies on the unit circle, the written matrix is orthonormal: its transpose is its inverse |
| GLMatrix.DetMulRotateY | Spectaculum-Core/src/main/java/net/protyposis/android/spectaculum/gles/GLUtils.java:208-222 | multiplying by a rotation about Y scales the determinant by c² + s², so by 1 on the unit circle |
| GLMatrix.DetMulRotateZ | Spectaculum-Core/src/main/java/net/protyposis/android/spectaculum/gles/GLUtils.java:208-222 | multiplying by a rotation about Z scales the determinant by c² + s², so by 1 on the unit circle |
| GLMatrix.EulerRotationIsProper | Spectaculum-Core/src/main/java/net/protyposis/android/spectaculum/gles/GLUtils.java:199-226 | when each sine/cosine pair lies on the unit circle, the written matrix is orthonormal with determinant 1: a proper rotation, never a reflection |

## Left out

- `setRotateEulerM` convention: the model lists the 16 entries row by row, so `Rx · Ry · Rz` is read with row vectors on the left and column vectors on the right. Applied to a column vector, this product rotates about Z first, then Y, then X. `android.opengl.Matrix` reads the same 16 floats column by column, so it sees the transpose, `Rzᵀ · Ryᵀ · Rxᵀ`. The model proves the entries and does not model that reader.
- GLUtils.Init: the `Log.w(TAG, "float framebuffer test failed")` warning (line 67) is not modelled. The log lines returned by the `clearError()` call in the fallback (line 69) are discarded, because `init` itself returns no log.
- `saveBitmapToFile` and `saveFramebufferToFile` (GLUtils.java lines 161-185) are file I/O and PNG compression. `saveFramebufferToFile` recycles the bitmap whether or not the save succeeded.
- `printSysConfig` (lines 127-135) and the `SystemClock` timing and `Log` calls in `getFrameBuffer` only log. The log lines of `checkError` are returned as a sequence, not written to a log.
- `isGlEs2Supported` (lines 77-81) queries an Android system service.
- `bmp1.recycle()` (line 155) frees memory and changes no observable value of the result.
- ImageViewActivity.java is UI glue (activity lifecycle, intents, menus). It is not part of this model.
- GLMatrix.SetRotateEulerM: the degree-to-radian scaling and the float `Math.sin`/`Math.cos` calls are not modelled. The six sines and cosines are real parameters, and the arithmetic is exact real arithmetic, not float rounding.
- GLMatrix.SetRotateEulerM: requires `rmOffset + 16 <= rm.length` and a non-negative offset. The partial write followed by `ArrayIndexOutOfBoundsException` for a short array is not modelled.
- GlContext.Context.NewProbeFramebuffer: the `Framebuffer` class is not part of this model. Its constructor is reduced to the driver's yes/no answer and the errors it leaves pending, and the flag it reads is passed in.
- GlContext.Context.GetError: the GL error state is a FIFO queue of non-zero codes. Real drivers keep one flag per error kind, which this queue over-approximates.
- GLUtils.GetFrameBuffer: width and height are natural numbers. Negative sizes and an int overflow of `width * height * 4` are not modelled.
- AndroidMatrix.SetRotate: only rotations by multiples of 90° and scales by ±1 are modelled. These are the only ones `getFrameBuffer` builds. General float matrices are left out.
- Orientation.CreateBitmap: only matrices that keep the axes in place are modelled, and filtering is not. For such matrices every destination pixel centre is the image of a source pixel centre, so filtering changes nothing.
- JavaLang.ToLowerCase: lowers ASCII letters only. Java's locale-dependent Unicode case mapping is not modelled, and the only query it serves ("tegra") is ASCII.
- Exceptions are reduced to their class and message.
