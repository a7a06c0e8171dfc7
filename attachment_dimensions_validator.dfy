/**
 * The decision logic of `AttachmentDimensionsValidator`: it probes an image
 * or a video for its width and height and reports every configured axis
 * limit (`max_x`, `max_y`) that the asset reaches or passes.
 *
 * The probes themselves (ImageMagick for images, ffprobe for videos) are
 * inputs: `None` stands for a probe that found nothing.
 */
module AttachmentDimensionsValidator {
  import opened Wrappers
  import opened RubyText
  import opened ValidatorSupport

  /** `AVAILABLE_CHECKS` */
  const AvailableChecks: seq<string> := ["max_x", "max_y"]

  /** `VALID_CONTENT_TYPES` */
  const ValidContentTypes: seq<string> := ["image", "video"]

  const ConfigurationMessage := "You must pass either :max_x, or :max_y to the validator"

  /** What `Integer#>=` raises when the limit it is given is `nil`. */
  const NilComparison := "comparison of Integer with nil failed"

  datatype Dimensions = Dimensions(width: int, height: int)

  const Zero := Dimensions(0, 0)

  /**
   * `check_validity!`: the configuration is refused exactly when neither
   * recognised key is present. Only the keys matter, not their values.
   */
  function CheckValidity<R>(options: map<string, Setting<R>>): (r: Option<RubyError>)
    ensures r.Some? <==> "max_x" !in options && "max_y" !in options
    ensures r.Some? ==> r.value == ArgumentError(ConfigurationMessage)
  {
    if exists k | k in AvailableChecks :: k in options then None
    else Some(ArgumentError(ConfigurationMessage))
  }

  /**
   * `image_dimensions` and `video_dimensions`, which differ only in the
   * probe they call: a blank file or a blank probe result reads as 0x0.
   */
  function ProbedDimensions(originalQueued: bool, geometry: Option<Dimensions>): (d: Dimensions)
    ensures originalQueued && geometry.Some? ==> d == geometry.value
    ensures !originalQueued || geometry.None? ==> d == Zero
  {
    if !originalQueued then Zero
    else match geometry
      case None => Zero
      case Some(g) => g
  }

  /** `extract_dimensions`: dispatch on the primary content type. */
  function ExtractDimensions(kind: string, originalQueued: bool,
                             imageGeometry: Option<Dimensions>, videoGeometry: Option<Dimensions>)
    : (d: Dimensions)
    ensures kind == "image" ==> d == ProbedDimensions(originalQueued, imageGeometry)
    ensures kind == "video" ==> d == ProbedDimensions(originalQueued, videoGeometry)
    ensures kind != "image" && kind != "video" ==> d == Zero
  {
    if kind == "image" then ProbedDimensions(originalQueued, imageGeometry)
    else if kind == "video" then ProbedDimensions(originalQueued, videoGeometry)
    else Zero
  }

  /**
   * `dimensions_exceeded?`: `Some(b)` when it returns `b`, `None` when the
   * comparison raises because the limit is `nil`. An unknown key compares
   * nothing and counts as exceeded.
   */
  function DimensionsExceeded(dimKey: string, axisLimit: Value, x: int, y: int): (r: Option<bool>)
    ensures r.None? <==> dimKey in AvailableChecks && axisLimit.Nil?
    ensures dimKey == "max_x" && axisLimit.Int? ==> r == Some(x >= axisLimit.n)
    ensures dimKey == "max_y" && axisLimit.Int? ==> r == Some(y >= axisLimit.n)
    ensures dimKey !in AvailableChecks ==> r == Some(true)
  {
    if dimKey == "max_x" then
      (match axisLimit case Nil => None case Int(limit) => Some(x >= limit))
    else if dimKey == "max_y" then
      (match axisLimit case Nil => None case Int(limit) => Some(y >= limit))
    else Some(true)
  }

  /** `axis_string`; an unknown key gives `nil`, which interpolates as "". */
  function AxisString(dimKey: string): (r: string)
    ensures r == "X-axis" <==> dimKey == "max_x"
    ensures r == "Y-axis" <==> dimKey == "max_y"
    ensures r == "" <==> dimKey !in AvailableChecks
  {
    if dimKey == "max_x" then "X-axis"
    else if dimKey == "max_y" then "Y-axis"
    else ""
  }

  /** `"#{axis_string(option)} cannot exceed #{option_value}"` */
  function Message(axis: string, limit: Value): (r: string)
    ensures |r| >= |axis| + 15 && r[..|axis|] == axis
    ensures r[|axis|..|axis| + 15] == " cannot exceed "
    ensures r[|axis| + 15..] == ValueToS(limit)
    ensures limit.Nil? <==> |r| == |axis| + 15
  {
    var lead := axis + " cannot exceed ";
    assert |lead| == |axis| + 15 && lead[..|axis|] == axis && lead[|axis|..] == " cannot exceed ";
    var r := lead + ValueToS(limit);
    assert r[..|lead|] == lead && r[|lead|..] == ValueToS(limit);
    assert r[..|axis|] == lead[..|axis|] && r[|axis|..|axis| + 15] == lead[|axis|..];
    r
  }

  /** The limit can be read back from the text after the axis name and ` cannot exceed `. */
  lemma MessageLimitReadsBack(axis: string, limit: int)
    ensures ParseInt(Message(axis, Int(limit))[|axis| + 15..]) == Some(limit)
  {
    var lead := axis + " cannot exceed ";
    assert Message(axis, Int(limit)) == lead + IntToS(limit);
    assert (lead + IntToS(limit))[|lead|..] == IntToS(limit);
    IntToSRoundTrip(limit);
  }

  /** The rendered text of an X-axis error. */
  lemma MessageText()
    ensures Message(AxisString("max_x"), Int(1920)) == "X-axis cannot exceed 1920"
  {
    var lead := "X-axis cannot exceed ";
    assert "X-axis" + " cannot exceed " == lead;
    RendersAs1920();
    assert lead + "1920" == "X-axis cannot exceed 1920";
  }

  /** `1920.to_s`, digit by digit. */
  lemma RendersAs1920()
    ensures ValueToS(Int(1920)) == "1920"
  {
    calc {
      NatToS(1920);
      NatToS(192) + [DigitChar(0)];
      NatToS(19) + [DigitChar(2)] + [DigitChar(0)];
      NatToS(1) + [DigitChar(9)] + [DigitChar(2)] + [DigitChar(0)];
      "1920";
    }
  }

  /** A negative limit keeps its sign in the text. */
  lemma NegativeLimitText()
    ensures Message(AxisString("max_y"), Int(-5)) == "Y-axis cannot exceed -5"
  {
    assert IntToS(-5) == "-5";
  }

  /**
   * One turn of the `each` loop in `validate_each`: a `nil` limit under a
   * recognised key raises before anything is added.
   */
  function Step(dims: Dimensions, option: string, value: Value): (r: Outcome)
    ensures r.raised.Some? <==> option in AvailableChecks && value.Nil?
    ensures r.raised.Some? ==> r.added == []
    ensures |r.added| <= 1
  {
    match DimensionsExceeded(option, value, dims.width, dims.height)
    case None => Outcome([], Some(ArgumentError(NilComparison)))
    case Some(exceeded) =>
      if exceeded then Outcome([Message(AxisString(option), value)], None)
      else Nothing
  }

  /**
   * An unrecognised key, were it to reach the block, would be reported with
   * an empty axis name and never compared, so even a `nil` limit would not
   * raise. Only sliced keys reach the block, so this cannot happen in `Validate`.
   */
  lemma UnknownOptionAlwaysReported(dims: Dimensions, option: string, value: Value)
    requires option !in AvailableChecks
    ensures Step(dims, option, value) == Outcome([" cannot exceed " + ValueToS(value)], None)
  {
    assert DimensionsExceeded(option, value, dims.width, dims.height) == Some(true);
    assert AxisString(option) == "";
    assert Message("", value) == " cannot exceed " + ValueToS(value);
  }

  function StepFor(dims: Dimensions): (string, Value) -> Outcome {
    (option, value) => Step(dims, option, value)
  }

  /**
   * `validate_each`: the messages it adds to the record's errors, in order,
   * and the exception it ends with, if any.
   */
  function Validate<R>(options: map<string, Setting<R>>, record: R,
                       assetPresent: bool, originalQueued: bool, contentType: string,
                       imageGeometry: Option<Dimensions>, videoGeometry: Option<Dimensions>)
    : (r: Outcome)
    ensures !assetPresent || !originalQueued || IsBlank(contentType) ==> r == Nothing
    ensures |r.added| <= |SliceKeys(options.Keys, AvailableChecks)|
  {
    if !assetPresent then Nothing
    else if !originalQueued || IsBlank(contentType) then Nothing
    else match SplitFirst(contentType)
      case None => Outcome([], Some(NoMethodError("to_sym")))
      case Some(kind) =>
        if kind !in ValidContentTypes then Nothing
        else
          var dims := ExtractDimensions(kind, originalQueued, imageGeometry, videoGeometry);
          var entries := ResolvedSlice(options, record, AvailableChecks);
          EachAddsAtMostOnePerEntry(StepFor(dims), entries);
          Each(StepFor(dims), entries)
  }

  /** Every recognised option present resolves to an Integer limit. */
  predicate NumericLimits<R>(options: map<string, Setting<R>>, record: R) {
    && ("max_x" in options ==> Resolve(options["max_x"], record).Int?)
    && ("max_y" in options ==> Resolve(options["max_y"], record).Int?)
  }

  /**
   * The gates before any limit is read: an asset is present, the original
   * style is queued, the content type is not blank, and its primary type is
   * one the validator measures.
   */
  predicate PassesGates(assetPresent: bool, originalQueued: bool, contentType: string, kind: string) {
    assetPresent && originalQueued && !IsBlank(contentType)
    && SplitFirst(contentType) == Some(kind) && kind in ValidContentTypes
  }

  /**
   * Reference reading of one axis: an option that is present reports
   * `"<axis> cannot exceed <limit>"` once the measured size reaches its limit.
   */
  function Report<R>(options: map<string, Setting<R>>, record: R, option: string, axis: string, measured: int)
    : seq<string>
    requires option in options ==> Resolve(options[option], record).Int?
  {
    if option !in options then []
    else
      var limit := Resolve(options[option], record).n;
      if measured >= limit then [Message(axis, Int(limit))] else []
  }

  /** The loop over either sliced key alone is that key's step, or nothing when the key is absent. */
  lemma EntriesStep<R>(d: Dimensions, options: map<string, Setting<R>>, record: R)
    ensures Each(StepFor(d), Entry(options, record, "max_x"))
         == if "max_x" in options then Step(d, "max_x", Resolve(options["max_x"], record)) else Nothing
    ensures Each(StepFor(d), Entry(options, record, "max_y"))
         == if "max_y" in options then Step(d, "max_y", Resolve(options["max_y"], record)) else Nothing
  {
    if "max_x" in options {
      EachSingle(StepFor(d), ("max_x", Resolve(options["max_x"], record)));
    }
    if "max_y" in options {
      EachSingle(StepFor(d), ("max_y", Resolve(options["max_y"], record)));
    }
  }

  /**
   * Once the gates pass and the limits are numbers, validation reports the
   * X axis, then the Y axis, each when its measured size reaches its limit.
   */
  lemma ValidateReportsReachedLimits<R>(options: map<string, Setting<R>>, record: R,
                                        assetPresent: bool, originalQueued: bool, contentType: string,
                                        imageGeometry: Option<Dimensions>, videoGeometry: Option<Dimensions>,
                                        kind: string)
    requires PassesGates(assetPresent, originalQueued, contentType, kind)
    requires NumericLimits(options, record)
    ensures var d := ExtractDimensions(kind, originalQueued, imageGeometry, videoGeometry);
            Validate(options, record, assetPresent, originalQueued, contentType, imageGeometry, videoGeometry)
            == Outcome(Report(options, record, "max_x", "X-axis", d.width)
                       + Report(options, record, "max_y", "Y-axis", d.height), None)
  {
    var d := ExtractDimensions(kind, originalQueued, imageGeometry, videoGeometry);
    EachOverTwo(StepFor(d), options, record, "max_x", "max_y");
    EntriesStep(d, options, record);
  }

  /** An X-axis error for limit `l` is added exactly when the width reaches `l`. */
  lemma MaxXReportedIffWidthReachesLimit<R>(options: map<string, Setting<R>>, record: R,
                                            assetPresent: bool, originalQueued: bool, contentType: string,
                                            imageGeometry: Option<Dimensions>, videoGeometry: Option<Dimensions>,
                                            kind: string, limit: int)
    requires PassesGates(assetPresent, originalQueued, contentType, kind)
    requires NumericLimits(options, record)
    requires "max_x" in options && Resolve(options["max_x"], record) == Int(limit)
    ensures var r := Validate(options, record, assetPresent, originalQueued, contentType, imageGeometry, videoGeometry);
            r.raised.None?
            && (Message("X-axis", Int(limit)) in r.added
                <==> ExtractDimensions(kind, originalQueued, imageGeometry, videoGeometry).width >= limit)
  {
    ValidateReportsReachedLimits(options, record, assetPresent, originalQueued, contentType, imageGeometry, videoGeometry, kind);
    var d := ExtractDimensions(kind, originalQueued, imageGeometry, videoGeometry);
    var message := Message("X-axis", Int(limit));
    var y := Report(options, record, "max_y", "Y-axis", d.height);
    assert message !in y by {
      if y != [] { assert y[0][0] == 'Y' && message[0] == 'X'; }
    }
    var mine := Report(options, record, "max_x", "X-axis", d.width);
    assert message in mine <==> d.width >= limit;
    assert message in mine + y <==> message in mine || message in y;
  }

  /** A Y-axis error for limit `l` is added exactly when the height reaches `l`. */
  lemma MaxYReportedIffHeightReachesLimit<R>(options: map<string, Setting<R>>, record: R,
                                             assetPresent: bool, originalQueued: bool, contentType: string,
                                             imageGeometry: Option<Dimensions>, videoGeometry: Option<Dimensions>,
                                             kind: string, limit: int)
    requires PassesGates(assetPresent, originalQueued, contentType, kind)
    requires NumericLimits(options, record)
    requires "max_y" in options && Resolve(options["max_y"], record) == Int(limit)
    ensures var r := Validate(options, record, assetPresent, originalQueued, contentType, imageGeometry, videoGeometry);
            r.raised.None?
            && (Message("Y-axis", Int(limit)) in r.added
                <==> ExtractDimensions(kind, originalQueued, imageGeometry, videoGeometry).height >= limit)
  {
    ValidateReportsReachedLimits(options, record, assetPresent, originalQueued, contentType, imageGeometry, videoGeometry, kind);
    var d := ExtractDimensions(kind, originalQueued, imageGeometry, videoGeometry);
    var message := Message("Y-axis", Int(limit));
    var x := Report(options, record, "max_x", "X-axis", d.width);
    assert message !in x by {
      if x != [] { assert x[0][0] == 'X' && message[0] == 'Y'; }
    }
    var mine := Report(options, record, "max_y", "Y-axis", d.height);
    assert message in mine <==> d.height >= limit;
    assert message in mine + x <==> message in mine || message in x;
  }

  /** An attached, processed `image/png` upload passes the gate. */
  lemma PngPassesGates()
    ensures PassesGates(true, true, "image/png", "image")
  {
    SplitFirstOfMimeType("image", "png");
    assert "image" + "/" + "png" == "image/png";
    assert !IsSpace("image/png"[0]);
  }

  /**
   * Reaching a limit exactly already counts: a 1920x1080 PNG under
   * `max_x: 1920` gets the X-axis error.
   */
  lemma LimitReachedExactlyIsReported<R>(record: R, videoGeometry: Option<Dimensions>)
    ensures Validate(map["max_x" := Literal(Int(1920))], record, true, true, "image/png",
                     Some(Dimensions(1920, 1080)), videoGeometry)
         == Outcome([Message("X-axis", Int(1920))], None)
  {
    var options: map<string, Setting<R>> := map["max_x" := Literal(Int(1920))];
    PngPassesGates();
    ValidateReportsReachedLimits(options, record, true, true, "image/png", Some(Dimensions(1920, 1080)), videoGeometry, "image");
  }

  /**
   * A probe that finds nothing reads as 0x0: a limit above zero is never
   * reported, a limit of zero or below always is.
   */
  lemma FailedProbeReadsAsZero<R>(options: map<string, Setting<R>>, record: R,
                                  assetPresent: bool, originalQueued: bool, contentType: string,
                                  imageGeometry: Option<Dimensions>, videoGeometry: Option<Dimensions>,
                                  kind: string, option: string, limit: int)
    requires PassesGates(assetPresent, originalQueued, contentType, kind)
    requires NumericLimits(options, record)
    requires kind == "image" ==> imageGeometry.None?
    requires kind == "video" ==> videoGeometry.None?
    requires option in AvailableChecks && option in options && Resolve(options[option], record) == Int(limit)
    ensures var r := Validate(options, record, assetPresent, originalQueued, contentType, imageGeometry, videoGeometry);
            Message(AxisString(option), Int(limit)) in r.added <==> limit <= 0
  {
    assert ExtractDimensions(kind, originalQueued, imageGeometry, videoGeometry) == Zero;
    if option == "max_x" {
      assert AxisString(option) == "X-axis";
      MaxXReportedIffWidthReachesLimit(options, record, assetPresent, originalQueued, contentType, imageGeometry, videoGeometry, kind, limit);
    } else {
      assert AxisString(option) == "Y-axis";
      MaxYReportedIffHeightReachesLimit(options, record, assetPresent, originalQueued, contentType, imageGeometry, videoGeometry, kind, limit);
    }
  }

  /**
   * A recognised option whose limit resolves to `nil` makes the comparison
   * raise; a `nil` X limit raises before anything is added.
   */
  lemma NilLimitRaises<R>(options: map<string, Setting<R>>, record: R,
                          assetPresent: bool, originalQueued: bool, contentType: string,
                          imageGeometry: Option<Dimensions>, videoGeometry: Option<Dimensions>,
                          kind: string)
    requires PassesGates(assetPresent, originalQueued, contentType, kind)
    ensures var r := Validate(options, record, assetPresent, originalQueued, contentType, imageGeometry, videoGeometry);
            && r.raised == (if NumericLimits(options, record) then None else Some(ArgumentError(NilComparison)))
            && ("max_x" in options && Resolve(options["max_x"], record).Nil? ==> r.added == [])
  {
    var d := ExtractDimensions(kind, originalQueued, imageGeometry, videoGeometry);
    EachOverTwo(StepFor(d), options, record, "max_x", "max_y");
    EntriesStep(d, options, record);
  }

  /**
   * Messages added before a `nil` limit raises stay on the record: with a
   * numeric X limit and a `nil` Y limit, the X message is added when the
   * width reaches its limit, and then `ArgumentError` is raised.
   */
  lemma ReachedXKeptWhenNilYRaises<R>(options: map<string, Setting<R>>, record: R,
                                      assetPresent: bool, originalQueued: bool, contentType: string,
                                      imageGeometry: Option<Dimensions>, videoGeometry: Option<Dimensions>,
                                      kind: string, limit: int)
    requires PassesGates(assetPresent, originalQueued, contentType, kind)
    requires "max_x" in options && Resolve(options["max_x"], record) == Int(limit)
    requires "max_y" in options && Resolve(options["max_y"], record).Nil?
    ensures var d := ExtractDimensions(kind, originalQueued, imageGeometry, videoGeometry);
            Validate(options, record, assetPresent, originalQueued, contentType, imageGeometry, videoGeometry)
            == Outcome(if d.width >= limit then [Message("X-axis", Int(limit))] else [],
                       Some(ArgumentError(NilComparison)))
  {
    var d := ExtractDimensions(kind, originalQueued, imageGeometry, videoGeometry);
    EachOverTwo(StepFor(d), options, record, "max_x", "max_y");
    EntriesStep(d, options, record);
  }

  /** Only the two recognised options are read: the rest of the hash makes no difference. */
  lemma OtherOptionsIgnored<R>(options: map<string, Setting<R>>, others: map<string, Setting<R>>, record: R,
                               assetPresent: bool, originalQueued: bool, contentType: string,
                               imageGeometry: Option<Dimensions>, videoGeometry: Option<Dimensions>)
    requires forall k | k in AvailableChecks :: k in options <==> k in others
    requires forall k | k in AvailableChecks && k in options ::
               Resolve(options[k], record) == Resolve(others[k], record)
    ensures Validate(options, record, assetPresent, originalQueued, contentType, imageGeometry, videoGeometry)
         == Validate(others, record, assetPresent, originalQueued, contentType, imageGeometry, videoGeometry)
  {
    SliceTwoKeys(options.Keys, "max_x", "max_y");
    SliceTwoKeys(others.Keys, "max_x", "max_y");
    assert ResolvedSlice(options, record, AvailableChecks) == ResolvedSlice(others, record, AvailableChecks);
  }

  /** A primary type other than `image` or `video` is never measured and adds nothing. */
  lemma OtherContentTypesIgnored<R>(options: map<string, Setting<R>>, record: R,
                                    assetPresent: bool, originalQueued: bool, contentType: string,
                                    imageGeometry: Option<Dimensions>, videoGeometry: Option<Dimensions>,
                                    kind: string)
    requires SplitFirst(contentType) == Some(kind) && kind != "image" && kind != "video"
    ensures Validate(options, record, assetPresent, originalQueued, contentType, imageGeometry, videoGeometry) == Nothing
  {
  }

  /** `audio/mpeg` adds no error, whatever the options say. */
  lemma AudioIsNotMeasured<R>(options: map<string, Setting<R>>, record: R,
                              imageGeometry: Option<Dimensions>, videoGeometry: Option<Dimensions>)
    ensures Validate(options, record, true, true, "audio/mpeg", imageGeometry, videoGeometry) == Nothing
  {
    SplitFirstOfMimeType("audio", "mpeg");
    assert "audio" + "/" + "mpeg" == "audio/mpeg";
    OtherContentTypesIgnored(options, record, true, true, "audio/mpeg", imageGeometry, videoGeometry, "audio");
  }

  /** A content type made only of slashes has no primary type, and `to_sym` on `nil` raises. */
  lemma SlashesOnlyContentTypeRaises<R>(options: map<string, Setting<R>>, record: R,
                                        imageGeometry: Option<Dimensions>, videoGeometry: Option<Dimensions>)
    ensures Validate(options, record, true, true, "/", imageGeometry, videoGeometry)
         == Outcome([], Some(NoMethodError("to_sym")))
  {
    assert !IsSpace("/"[0]);
  }

  /**
   * `validate_each` over the record: appends the messages of `Validate` to
   * `errors` under `attrName`, stopping where `Validate` raises.
   */
  method ValidateEach<R>(options: map<string, Setting<R>>, record: R, errors: Errors, attrName: string,
                         assetPresent: bool, originalQueued: bool, contentType: string,
                         imageGeometry: Option<Dimensions>, videoGeometry: Option<Dimensions>)
    returns (raised: Option<RubyError>)
    modifies errors
    ensures var r := Validate(options, record, assetPresent, originalQueued, contentType, imageGeometry, videoGeometry);
            errors.entries == old(errors.entries) + Tagged(attrName, r.added) && raised == r.raised
  {
    if !assetPresent {
      return None;
    }
    if !originalQueued || IsBlank(contentType) {
      return None;
    }
    var first := SplitFirst(contentType);
    if first.None? {
      return Some(NoMethodError("to_sym"));
    }
    var kind := first.value;
    if kind !in ValidContentTypes {
      return None;
    }
    var dims := ExtractDimensions(kind, originalQueued, imageGeometry, videoGeometry);
    raised := CheckLimits(options, record, errors, attrName, dims);
  }

  /** The `each` loop of `validate_each`, over the sliced options. */
  method CheckLimits<R>(options: map<string, Setting<R>>, record: R, errors: Errors, attrName: string,
                        dims: Dimensions)
    returns (raised: Option<RubyError>)
    modifies errors
    ensures var r := Each(StepFor(dims), ResolvedSlice(options, record, AvailableChecks));
            errors.entries == old(errors.entries) + Tagged(attrName, r.added) && raised == r.raised
  {
    var keys := SliceKeys(options.Keys, AvailableChecks);
    ghost var entries := ResolvedSlice(options, record, AvailableChecks);
    ghost var step := StepFor(dims);
    ProgressStart(step, entries, attrName, errors.entries);
    var i := 0;
    while i < |keys|
      invariant Progress(step, entries, attrName, old(errors.entries), errors.entries, i)
    {
      var option := keys[i];
      CheckLimitsTurn(options, record, dims, attrName, old(errors.entries), errors.entries, i);
      raised := CheckOption(options[option], record, errors, attrName, option, dims);
      if raised.Some? {
        return;
      }
      i := i + 1;
    }
    ProgressEnd(step, entries, attrName, old(errors.entries), errors.entries, i);
    raised := None;
  }

  /**
   * One turn of `CheckLimits` appends the `i`-th sliced option's `Step`: it
   * keeps `Progress` when the step does not raise, and otherwise completes
   * the whole loop's outcome.
   */
  lemma CheckLimitsTurn<R>(options: map<string, Setting<R>>, record: R, dims: Dimensions,
                           attrName: string, base: seq<ErrorEntry>, current: seq<ErrorEntry>, i: nat)
    requires Progress(StepFor(dims), ResolvedSlice(options, record, AvailableChecks), attrName, base, current, i)
    requires i < |SliceKeys(options.Keys, AvailableChecks)|
    ensures var option := SliceKeys(options.Keys, AvailableChecks)[i];
            option in options
            && var s := Step(dims, option, Resolve(options[option], record));
            var r := Each(StepFor(dims), ResolvedSlice(options, record, AvailableChecks));
            && (s.raised.None? ==> Progress(StepFor(dims), ResolvedSlice(options, record, AvailableChecks), attrName, base,
                                            current + Tagged(attrName, s.added), i + 1))
            && (s.raised.Some? ==> current + Tagged(attrName, s.added) == base + Tagged(attrName, r.added)
                                   && s.raised == r.raised)
  {
    var entries := ResolvedSlice(options, record, AvailableChecks);
    var option := SliceKeys(options.Keys, AvailableChecks)[i];
    var value := Resolve(options[option], record);
    assert entries[i] == (option, value);
    assert StepFor(dims)(option, value) == Step(dims, option, value);
    if Step(dims, option, value).raised.None? {
      ProgressTurn(StepFor(dims), entries, attrName, base, current, i, option, value);
    } else {
      ProgressRaise(StepFor(dims), entries, attrName, base, current, i, option, value);
    }
  }

  /** The block of the `each` loop, for one sliced option. */
  method CheckOption<R>(setting: Setting<R>, record: R, errors: Errors, attrName: string,
                        option: string, dims: Dimensions)
    returns (raised: Option<RubyError>)
    modifies errors
    ensures var r := Step(dims, option, Resolve(setting, record));
            errors.entries == old(errors.entries) + Tagged(attrName, r.added) && raised == r.raised
  {
    var value := Resolve(setting, record);
    match DimensionsExceeded(option, value, dims.width, dims.height)
    case None =>
      raised := Some(ArgumentError(NilComparison));
    case Some(exceeded) =>
      if exceeded {
        errors.Add(attrName, Message(AxisString(option), value));
      }
      raised := None;
  }
}
