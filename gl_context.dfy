/**
  The GLES context GLUtils talks to, reduced to what it observes: the error
  queue that `glGetError` drains, the strings `glGetString` returns, the
  platform's SDK level, the colour buffer `glReadPixels` reads, and how the
  driver reacts to a framebuffer with a floating-point colour attachment.
 */
module GlContext {
  import opened Wrappers
  import opened JavaLang
  import opened Pixels

  /** `GLES20.GL_NO_ERROR`: what `glGetError` returns when nothing is pending. */
  const GL_NO_ERROR: Int32 := 0

  /** A pending error: any Java int other than GL_NO_ERROR. */
  type ErrorCode = e: Int32 | e != GL_NO_ERROR witness 0x0500

  /**
    What the context reports and how it reacts; none of it changes while the
    context is current.  The two error lists are what the driver records when
    a read-back is issued and when the float framebuffer probe fails.
   */
  datatype Driver = Driver(
    extensions: Option<string>,              // glGetString(GL_EXTENSIONS)
    renderer: Option<string>,                // glGetString(GL_RENDERER)
    sdkInt: int,                             // Build.VERSION.SDK_INT
    floatFramebufferWorks: bool,             // new Framebuffer(8, 8) with a float texture succeeds
    probeFailureErrors: seq<ErrorCode>,      // left pending when that probe fails
    readPixelsErrors: seq<ErrorCode>,        // raised by glReadPixels
    colorBuffer: (int, int) -> Rgba)         // pixel at window (x, y), origin bottom left

  class Context {
    const driver: Driver
    /** The pending errors, oldest first. */
    var errors: seq<ErrorCode>

    constructor (driver: Driver, pending: seq<ErrorCode>)
      ensures this.driver == driver && errors == pending
    {
      this.driver := driver;
      errors := pending;
    }

    /** `glGetError()`: takes the oldest pending error, or reports none. */
    method GetError() returns (error: Int32)
      modifies this
      ensures old(errors) == [] ==> error == GL_NO_ERROR && errors == []
      ensures old(errors) != [] ==> error == old(errors)[0] && errors == old(errors)[1..]
    {
      if errors == [] {
        error := GL_NO_ERROR;
      } else {
        error := errors[0];
        errors := errors[1..];
      }
    }

    /**
      `glReadPixels(0, 0, width, height, GL_RGBA, GL_UNSIGNED_BYTE, pixels)`
      into a buffer of exactly width * height * 4 bytes.
     */
    method ReadPixels(width: nat, height: nat, pixels: array<bv8>)
      requires pixels.Length == width * height * 4
      modifies this, pixels
      ensures pixels[..] == WindowBytes(driver.colorBuffer, width, height)
      ensures errors == old(errors) + driver.readPixelsErrors
    {
      var bytes := WindowBytes(driver.colorBuffer, width, height);
      forall i | 0 <= i < pixels.Length {
        pixels[i] := bytes[i];
      }
      errors := errors + driver.readPixelsErrors;
    }

    /**
      `new Framebuffer(8, 8)`: succeeds unless it attaches a floating-point
      texture (which it does when `floatAttachment` is set) to a driver that
      cannot render to one; a failure leaves the driver's errors pending.
     */
    method NewProbeFramebuffer(floatAttachment: bool) returns (created: bool)
      modifies this
      ensures created == (!floatAttachment || driver.floatFramebufferWorks)
      ensures errors == if created then old(errors) else old(errors) + driver.probeFailureErrors
    {
      created := !floatAttachment || driver.floatFramebufferWorks;
      if !created {
        errors := errors + driver.probeFailureErrors;
      }
    }
  }

}
