/**
  GLUtils: the static helpers of Spectaculum-Core around a current GLES
  context.  The error-queue helpers (checkError, clearError), the extension
  query (getExtensions, checkExtension), the feature-flag detection (init)
  and the framebuffer read-back (getFrameBuffer).
 */
module GLUtils {
  import opened Wrappers
  import opened JavaLang
  import opened Pixels
  import opened AndroidMatrix
  import opened Orientation
  import opened GlContext

  /** The Java exceptions the modelled code can raise. */
  datatype Exception =
    | RuntimeException(message: string)
    | IllegalArgumentException(message: string)
    | NullPointerException

  /** How a call ends: normally, or by throwing. */
  datatype Outcome = Completed | Threw(exception: Exception)

  // ---------------------------------------------------------------------------
  // checkError / clearError
  // ---------------------------------------------------------------------------

  const ERROR_PREFIX := "GL ERROR 0x"
  const OPERATION_SEPARATOR := " @ "

  /** The message checkError logs for an error: the code in upper-case hex, then the operation. */
  function ErrorMessage(error: ErrorCode, operation: string): string
  {
    ERROR_PREFIX + HexString(Unsigned32(error)) + OPERATION_SEPARATOR + operation
  }

  /** Reads the error code and the operation back out of a message. */
  function ParseErrorMessage(message: string): Option<(Int32, string)>
  {
    if |message| < |ERROR_PREFIX| || message[..|ERROR_PREFIX|] != ERROR_PREFIX then None
    else
      var rest := message[|ERROR_PREFIX|..];
      var end := IndexOfSpace(rest);
      ParseCodeAndOperation(rest[..end], rest[end..])
  }

  /** The numeral before the first space, and the separator and operation after it. */
  function ParseCodeAndOperation(digits: string, tail: string): Option<(Int32, string)>
  {
    if digits == [] || exists k | 0 <= k < |digits| :: !IsHexDigit(digits[k]) then None
    else if |tail| < |OPERATION_SEPARATOR| || tail[..|OPERATION_SEPARATOR|] != OPERATION_SEPARATOR then None
    else
      var code := ParseHex(digits);
      if code >= 0x1_0000_0000 then None
      else Some((Signed32(code), tail[|OPERATION_SEPARATOR|..]))
  }

  /** The message names the error, negative codes included, and the operation, whatever it is. */
  lemma ErrorMessageRoundTrip(error: ErrorCode, operation: string)
    ensures ParseErrorMessage(ErrorMessage(error, operation)) == Some((error, operation))
  {
    var hex := HexString(Unsigned32(error));
    var rest := hex + OPERATION_SEPARATOR + operation;
    assert ErrorMessage(error, operation) == ERROR_PREFIX + rest;
    PrefixThenRest(rest);
    NumeralEndsAtSpace(hex, operation);
    assert rest[..|hex|] == hex;
    assert rest[|hex|..] == OPERATION_SEPARATOR + operation;
    NumeralAndOperation(Unsigned32(error), operation);
  }

  /** Cutting the prefix off a message leaves the rest. */
  lemma PrefixThenRest(rest: string)
    ensures (ERROR_PREFIX + rest)[..|ERROR_PREFIX|] == ERROR_PREFIX
    ensures (ERROR_PREFIX + rest)[|ERROR_PREFIX|..] == rest
  {
  }

  /** A numeral has no space in it, so the separator's space ends it. */
  lemma NumeralEndsAtSpace(hex: string, operation: string)
    requires forall k :: 0 <= k < |hex| ==> IsHexDigit(hex[k])
    ensures IndexOfSpace(hex + OPERATION_SEPARATOR + operation) == |hex|
  {
    var rest := hex + OPERATION_SEPARATOR + operation;
    forall k | 0 <= k < |hex| ensures rest[k] != ' ' {
      assert rest[k] == hex[k];
    }
    assert rest[|hex|] == ' ';
  }

  /** The numeral of any 32-bit pattern, then the separator, parses back to the code and the operation. */
  lemma NumeralAndOperation(n: nat, operation: string)
    requires n < 0x1_0000_0000
    ensures ParseCodeAndOperation(HexString(n), OPERATION_SEPARATOR + operation) == Some((Signed32(n), operation))
  {
    ParseHexString(n);
    assert (OPERATION_SEPARATOR + operation)[..|OPERATION_SEPARATOR|] == OPERATION_SEPARATOR;
    assert (OPERATION_SEPARATOR + operation)[|OPERATION_SEPARATOR|..] == operation;
  }

  /**
    `checkError(operation, throwException)`: pops errors until the queue
    reports GL_NO_ERROR, logging one line per error.  It throws only when
    asked to and at least one error was pending, and the exception carries the
    message of the last error, as each one overwrites the previous.
   */
  method CheckError(ctx: Context, operation: string, throwException: bool)
    returns (outcome: Outcome, logged: seq<string>)
    modifies ctx
    ensures ctx.errors == []
    ensures |logged| == |old(ctx.errors)|
    ensures forall i :: 0 <= i < |logged| ==> logged[i] == ErrorMessage(old(ctx.errors)[i], operation)
    ensures outcome.Threw? <==> throwException && old(ctx.errors) != []
    ensures outcome.Threw? ==>
      outcome.exception == RuntimeException(ErrorMessage(old(ctx.errors)[|old(ctx.errors)| - 1], operation))
  {
    ghost var pending := ctx.errors;
    var errorCount := 0;
    var msg: Option<string> := None;
    logged := [];
    var error := ctx.GetError();
    while error != GL_NO_ERROR
      invariant 0 <= errorCount <= |pending|
      invariant error == if errorCount < |pending| then pending[errorCount] else GL_NO_ERROR
      invariant ctx.errors == if errorCount < |pending| then pending[errorCount + 1..] else []
      invariant |logged| == errorCount
      invariant forall i :: 0 <= i < errorCount ==> logged[i] == ErrorMessage(pending[i], operation)
      invariant msg == if errorCount == 0 then None else Some(ErrorMessage(pending[errorCount - 1], operation))
      decreases |pending| - errorCount
    {
      msg := Some(ErrorMessage(error, operation));
      logged := logged + [msg.value];
      errorCount := errorCount + 1;
      error := ctx.GetError();
    }
    if throwException && errorCount > 0 {
      outcome := Threw(RuntimeException(msg.value));
    } else {
      outcome := Completed;
    }
  }

  /** `checkError(operation)`: throws exactly when an error was pending. */
  method CheckErrorOrThrow(ctx: Context, operation: string) returns (outcome: Outcome, logged: seq<string>)
    modifies ctx
    ensures ctx.errors == []
    ensures |logged| == |old(ctx.errors)|
    ensures forall i :: 0 <= i < |logged| ==> logged[i] == ErrorMessage(old(ctx.errors)[i], operation)
    ensures outcome.Threw? <==> old(ctx.errors) != []
    ensures outcome.Threw? ==>
      outcome.exception == RuntimeException(ErrorMessage(old(ctx.errors)[|old(ctx.errors)| - 1], operation))
  {
    outcome, logged := CheckError(ctx, operation, true);
  }

  /** `clearError()`: drains the queue and never throws. */
  method ClearError(ctx: Context) returns (logged: seq<string>)
    modifies ctx
    ensures ctx.errors == []
    ensures |logged| == |old(ctx.errors)|
    ensures forall i :: 0 <= i < |logged| ==> logged[i] == ErrorMessage(old(ctx.errors)[i], "error clearance")
  {
    var outcome;
    outcome, logged := CheckError(ctx, "error clearance", false);
    assert outcome == Completed;
  }

  // ---------------------------------------------------------------------------
  // getExtensions / checkExtension
  // ---------------------------------------------------------------------------

  /**
    `getExtensions()` on the value of glGetString(GL_EXTENSIONS): no names
    for a null string, else the string split at single spaces.
   */
  function GetExtensions(extensions: Option<string>): (names: seq<string>)
    ensures extensions.None? ==> names == []
    ensures extensions == Some("") ==> names == [""]
    ensures forall name <- names :: ' ' !in name
    ensures extensions.Some? ==> names <= Fields(extensions.value)
    ensures extensions.Some? ==> forall k :: |names| <= k < |Fields(extensions.value)| ==> Fields(extensions.value)[k] == ""
    ensures extensions.Some? && extensions.value != "" ==> names == [] || names[|names| - 1] != ""
  {
    match extensions
    case None => []
    case Some(s) => Split(s)
  }

  /** `checkExtension(query)`: scans the names for one equal to the query. */
  method CheckExtension(ctx: Context, query: string) returns (supported: bool)
    ensures supported <==> query in GetExtensions(ctx.driver.extensions)
  {
    var names := GetExtensions(ctx.driver.extensions);
    for i := 0 to |names|
      invariant query !in names[..i]
    {
      if names[i] == query {
        return true;
      }
    }
    return false;
  }

  /**
    A non-empty name without spaces is supported exactly when the extension
    string holds it with a space or an end of the string on either side; so
    "GL_OES_texture_float" is not found in "GL_OES_texture_float2", nor
    "GL_OES_texture" in "GL_OES_texture_float".  A query holding a space, or
    any query against a null string, is never supported.
   */
  lemma CheckExtensionIsExact(extensions: Option<string>, query: string)
    requires query != ""
    ensures extensions.None? || ' ' in query ==> query !in GetExtensions(extensions)
    ensures extensions.Some? && ' ' !in query ==>
      (query in GetExtensions(extensions) <==> exists i :: DelimitedAt(extensions.value, query, i))
  {
    if extensions.Some? && ' ' !in query {
      SplitMemberIffDelimited(extensions.value, query);
    }
  }

  // ---------------------------------------------------------------------------
  // init
  // ---------------------------------------------------------------------------

  /** `Build.VERSION_CODES.JELLY_BEAN_MR2`. */
  const JELLY_BEAN_MR2 := 18

  const GL_OES_TEXTURE_HALF_FLOAT := "GL_OES_texture_half_float"
  const GL_OES_TEXTURE_FLOAT := "GL_OES_texture_float"

  /** The values of the five static flags. */
  datatype Capabilities = Capabilities(
    hasGles30: bool,
    hasTextureHalfFloat: bool,
    hasTextureFloat: bool,
    hasFloatFramebufferSupport: bool,
    hasGpuTegra: bool)

  /** The static feature flags of GLUtils (HAS_GLES30, HAS_GL_OES_texture_half_float, ...). */
  class FeatureFlags {
    var hasGles30: bool
    var hasTextureHalfFloat: bool
    var hasTextureFloat: bool
    var hasFloatFramebufferSupport: bool
    var hasGpuTegra: bool

    /** Java's static fields start out false. */
    constructor ()
      ensures Snapshot() == Capabilities(false, false, false, false, false)
    {
      hasGles30, hasTextureHalfFloat, hasTextureFloat := false, false, false;
      hasFloatFramebufferSupport, hasGpuTegra := false, false;
    }

    function Snapshot(): Capabilities
      reads this
    {
      Capabilities(hasGles30, hasTextureHalfFloat, hasTextureFloat, hasFloatFramebufferSupport, hasGpuTegra)
    }
  }

  /** The probe runs when a float texture extension is advertised and init gets that far. */
  predicate ProbeRuns(d: Driver)
  {
    d.renderer.Some? &&
    (GL_OES_TEXTURE_HALF_FLOAT in GetExtensions(d.extensions) || GL_OES_TEXTURE_FLOAT in GetExtensions(d.extensions))
  }

  /**
    The flags init leaves behind, from the driver and the flags before the
    call.  A null renderer string makes `toLowerCase()` throw after the first
    three flags are set.  The float framebuffer flag is only assigned when the
    probe runs; set to true before the probe, it ends up as the probe's result.
   */
  function Detect(d: Driver, previous: Capabilities): Capabilities
  {
    var gles30 := d.sdkInt >= JELLY_BEAN_MR2;
    var halfFloat := GL_OES_TEXTURE_HALF_FLOAT in GetExtensions(d.extensions);
    var float := GL_OES_TEXTURE_FLOAT in GetExtensions(d.extensions);
    match d.renderer
    case None =>
      previous.(hasGles30 := gles30, hasTextureHalfFloat := halfFloat, hasTextureFloat := float)
    case Some(renderer) =>
      Capabilities(gles30, halfFloat, float,
        if halfFloat || float then d.floatFramebufferWorks else previous.hasFloatFramebufferSupport,
        Contains(ToLowerCase(renderer), "tegra"))
  }

  /**
    `init()`: sets the flags in source order.  HAS_FLOAT_FRAMEBUFFER_SUPPORT
    is set to true before the probe framebuffer is built, because the
    framebuffer consults it to choose a float attachment; if the probe fails
    the flag is rolled back and the error queue cleared.
   */
  method Init(ctx: Context, flags: FeatureFlags) returns (outcome: Outcome)
    modifies ctx, flags
    ensures flags.Snapshot() == Detect(ctx.driver, old(flags.Snapshot()))
    ensures outcome == if ctx.driver.renderer.None? then Threw(NullPointerException) else Completed
    ensures ctx.errors == if ProbeRuns(ctx.driver) && !ctx.driver.floatFramebufferWorks then [] else old(ctx.errors)
  {
    flags.hasGles30 := ctx.driver.sdkInt >= JELLY_BEAN_MR2;
    flags.hasTextureHalfFloat := CheckExtension(ctx, GL_OES_TEXTURE_HALF_FLOAT);
    flags.hasTextureFloat := CheckExtension(ctx, GL_OES_TEXTURE_FLOAT);
    if ctx.driver.renderer.None? {
      return Threw(NullPointerException);
    }
    flags.hasGpuTegra := Contains(ToLowerCase(ctx.driver.renderer.value), "tegra");

    if flags.hasTextureHalfFloat || flags.hasTextureFloat {
      flags.hasFloatFramebufferSupport := true;
      var created := ctx.NewProbeFramebuffer(flags.hasFloatFramebufferSupport);
      if !created {
        flags.hasFloatFramebufferSupport := false;
        var _ := ClearError(ctx);
      }
    }
    outcome := Completed;
  }

  /** Running init again on the same context leaves the flags as they are. */
  lemma DetectIsIdempotent(d: Driver, previous: Capabilities)
    ensures Detect(d, Detect(d, previous)) == Detect(d, previous)
  {
  }

  /**
    What the flags mean, once init has completed: GLES 3.0 from API level 18
    on; each texture flag when the extension string is not null and holds its
    name as a whole token; the Tegra flag when "tegra" occurs in the renderer
    string in any mix of cases; float framebuffer support as the probe found
    it, or unchanged when neither float texture extension is advertised.
   */
  lemma DetectedFlags(d: Driver, previous: Capabilities, renderer: string)
    requires d.renderer == Some(renderer)
    ensures var flags := Detect(d, previous);
      (flags.hasGles30 <==> d.sdkInt >= JELLY_BEAN_MR2) &&
      (flags.hasTextureHalfFloat <==>
        d.extensions.Some? && exists i :: DelimitedAt(d.extensions.value, GL_OES_TEXTURE_HALF_FLOAT, i)) &&
      (flags.hasTextureFloat <==>
        d.extensions.Some? && exists i :: DelimitedAt(d.extensions.value, GL_OES_TEXTURE_FLOAT, i)) &&
      (flags.hasGpuTegra <==> exists i :: MatchesIgnoringCaseAt(renderer, "tegra", i)) &&
      flags.hasFloatFramebufferSupport ==
        if flags.hasTextureHalfFloat || flags.hasTextureFloat then d.floatFramebufferWorks
        else previous.hasFloatFramebufferSupport
  {
    CheckExtensionIsExact(d.extensions, GL_OES_TEXTURE_HALF_FLOAT);
    CheckExtensionIsExact(d.extensions, GL_OES_TEXTURE_FLOAT);
    LowerContainsIffIgnoringCase(renderer, "tegra");
  }

  // ---------------------------------------------------------------------------
  // getFrameBuffer
  // ---------------------------------------------------------------------------

  /** What getFrameBuffer returns or throws. */
  datatype Capture = Captured(bitmap: Bitmap) | Failed(exception: Exception)

  /**
    `getFrameBuffer(width, height)`: reads the bound framebuffer into a
    width * height * 4 byte buffer, checks for errors (throwing) before any
    bitmap exists, copies the bytes into a bitmap and turns it upright.  The
    error check also reports errors left pending by earlier calls.
   */
  method GetFrameBuffer(ctx: Context, width: nat, height: nat) returns (result: Capture)
    modifies ctx
    ensures ctx.errors == []
    ensures var pending := old(ctx.errors) + ctx.driver.readPixelsErrors;
      pending != [] ==>
        result == Failed(RuntimeException(ErrorMessage(pending[|pending| - 1], "glReadPixels")))
    ensures old(ctx.errors) + ctx.driver.readPixelsErrors == [] && (width == 0 || height == 0) ==>
      result == Failed(IllegalArgumentException("width and height must be > 0"))
    ensures old(ctx.errors) + ctx.driver.readPixelsErrors == [] && width > 0 && height > 0 ==>
      result.Captured? && result.bitmap.Valid() &&
      result.bitmap.width == width && result.bitmap.height == height &&
      forall x, y :: 0 <= x < width && 0 <= y < height ==>
        result.bitmap.pixels[y][x] == ctx.driver.colorBuffer(x, height - 1 - y)
  {
    var buffer := new bv8[width * height * 4];
    ctx.ReadPixels(width, height, buffer);
    var check, _ := CheckErrorOrThrow(ctx, "glReadPixels");
    if check.Threw? {
      return Failed(check.exception);
    }
    if width == 0 || height == 0 {
      // Bitmap.createBitmap refuses an empty bitmap.
      return Failed(IllegalArgumentException("width and height must be > 0"));
    }
    var bmp1 := CopyPixelsFromBuffer(buffer[..], width, height);
    var bmp2 := CreateBitmap(bmp1, UprightMatrix());
    forall x, y | 0 <= x < width && 0 <= y < height
      ensures bmp2.pixels[y][x] == ctx.driver.colorBuffer(x, height - 1 - y)
    {
      UprightReadBack(ctx.driver.colorBuffer, width, height, x, y);
    }
    result := Captured(bmp2);
  }

}
