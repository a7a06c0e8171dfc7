/**
 * The decision logic of `AttachmentVideoLengthValidator`: it probes a video
 * for its duration and reports the configured length limits (`min_length`,
 * `max_length`) that the comparisons flag.
 *
 * The comparisons are modelled as the code writes them, which is the
 * reverse of what its comments describe: a `min_length` is flagged when the
 * video is LONGER than it, a `max_length` when the video is SHORTER than it
 * (see `MinLengthFlagsLongerVideos`). The ffprobe call is an input: `None`
 * stands for no probe result, no first video stream, or no duration.
 */
module AttachmentVideoLengthValidator {
  import opened Wrappers
  import opened RubyText
  import opened ValidatorSupport

  /** `AVAILABLE_CHECKS` */
  const AvailableChecks: seq<string> := ["min_length", "max_length"]

  /** `VALID_CONTENT_TYPES` */
  const ValidContentTypes: seq<string> := ["video"]

  const ConfigurationMessage := "You must pass either :min_length, or :max_length to the validator"

  /**
   * `check_validity!`: the configuration is refused exactly when neither
   * recognised key is present. Only the keys matter, not their values.
   */
  function CheckValidity<R>(options: map<string, Setting<R>>): (r: Option<RubyError>)
    ensures r.Some? <==> "min_length" !in options && "max_length" !in options
    ensures r.Some? ==> r.value == ArgumentError(ConfigurationMessage)
  {
    if exists k | k in AvailableChecks :: k in options then None
    else Some(ArgumentError(ConfigurationMessage))
  }

  /**
   * `limits_exceeded?`, as written: a blank limit is never enforced, an
   * unknown length always fails, and otherwise the limit is compared with
   * the length strictly. An unknown option falls off the end (`nil`).
   */
  function LimitsExceeded(option: string, limit: Value, lengthInSeconds: Option<real>): (r: bool)
    ensures r ==> !IsBlankValue(limit)
    ensures lengthInSeconds.None? ==> (r <==> !IsBlankValue(limit))
    ensures r && lengthInSeconds.Some? ==> option in AvailableChecks
  {
    if IsBlankValue(limit) then false
    else if lengthInSeconds.None? then true
    else if option == "min_length" then (limit.n as real) < lengthInSeconds.value
    else if option == "max_length" then (limit.n as real) > lengthInSeconds.value
    else false
  }

  /** `option_string`; an unknown option gives `nil`, which interpolates as "". */
  function OptionString(option: string): (r: string)
    ensures r == "minimum length" <==> option == "min_length"
    ensures r == "maximum length" <==> option == "max_length"
    ensures r == "" <==> option !in AvailableChecks
  {
    if option == "min_length" then "minimum length"
    else if option == "max_length" then "maximum length"
    else ""
  }

  /** `"Asset cannot exceed #{option_string(option)} of #{option_value}"` */
  function Message(wording: string, limit: int): (r: string)
    ensures |r| > |wording| + 24 && r[..20] == "Asset cannot exceed "
    ensures r[20..20 + |wording|] == wording
    ensures r[20 + |wording|..24 + |wording|] == " of "
    ensures r[24 + |wording|..] == IntToS(limit)
  {
    var lead := "Asset cannot exceed " + wording + " of ";
    assert |lead| == |wording| + 24;
    assert lead[..20] == "Asset cannot exceed " && lead[20..20 + |wording|] == wording;
    assert lead[20 + |wording|..] == " of ";
    var r := lead + IntToS(limit);
    assert r[..|lead|] == lead && r[|lead|..] == IntToS(limit);
    assert r[..20] == lead[..20] && r[20..20 + |wording|] == lead[20..20 + |wording|];
    assert r[20 + |wording|..24 + |wording|] == lead[20 + |wording|..];
    r
  }

  /** The limit can be read back from the text after the wording and ` of `. */
  lemma MessageLimitReadsBack(wording: string, limit: int)
    ensures ParseInt(Message(wording, limit)[|wording| + 24..]) == Some(limit)
  {
    var lead := "Asset cannot exceed " + wording + " of ";
    assert Message(wording, limit) == lead + IntToS(limit);
    assert (lead + IntToS(limit))[|lead|..] == IntToS(limit);
    IntToSRoundTrip(limit);
  }

  /** One turn of the `each` loop in `validate_each`; `next` skips a blank limit. */
  function Step(lengthInSeconds: Option<real>, option: string, value: Value): (r: Outcome)
    ensures r.raised.None?
    ensures |r.added| <= 1
  {
    if IsBlankValue(value) then Nothing
    else if LimitsExceeded(option, value, lengthInSeconds) then Outcome([Message(OptionString(option), value.n)], None)
    else Nothing
  }

  function StepFor(lengthInSeconds: Option<real>): (string, Value) -> Outcome {
    (option, value) => Step(lengthInSeconds, option, value)
  }

  /**
   * `validate_each`: the messages it adds to the record's errors, in order,
   * and the exception it ends with, if any.
   */
  function Validate<R>(options: map<string, Setting<R>>, record: R,
                       assetPresent: bool, originalQueued: bool, contentType: string,
                       lengthInSeconds: Option<real>)
    : (r: Outcome)
    ensures !assetPresent || !originalQueued || IsBlank(contentType) ==> r == Nothing
    ensures |r.added| <= |SliceKeys(options.Keys, AvailableChecks)|
  {
    if !assetPresent then Nothing
    else if !originalQueued || IsBlank(contentType) then Nothing
    else match SplitFirst(contentType)
      case None => Outcome([], Some(NoMethodError("to_sym")))
      case Some(kind) =>
        if kind !in ValidContentTypes then Nothing
        else
          var entries := ResolvedSlice(options, record, AvailableChecks);
          EachAddsAtMostOnePerEntry(StepFor(lengthInSeconds), entries);
          Each(StepFor(lengthInSeconds), entries)
  }

  /**
   * The gates before any limit is read: an asset is present, the original
   * style is queued, and the content type is a non-blank `video/...` type.
   */
  predicate PassesGates(assetPresent: bool, originalQueued: bool, contentType: string) {
    assetPresent && originalQueued && !IsBlank(contentType) && SplitFirst(contentType) == Some("video")
  }

  /**
   * Reference reading of one option as the code compares it: a present,
   * non-blank limit is reported when the length is unknown, or when
   * `flagged(limit, length)` holds.
   */
  function Report<R>(options: map<string, Setting<R>>, record: R, option: string, wording: string,
                     lengthInSeconds: Option<real>, flagged: (real, real) -> bool)
    : seq<string>
  {
    if option !in options then []
    else match Resolve(options[option], record)
      case Nil => []
      case Int(limit) =>
        if lengthInSeconds.None? || flagged(limit as real, lengthInSeconds.value)
        then [Message(wording, limit)] else []
  }

  /**
   * Once the gates pass, validation reports the minimum length, then the
   * maximum length, each under the comparison the code makes: `limit < length`
   * for the minimum, `limit > length` for the maximum.
   */
  lemma ValidateReportsFlaggedLimits<R>(options: map<string, Setting<R>>, record: R,
                                        assetPresent: bool, originalQueued: bool, contentType: string,
                                        lengthInSeconds: Option<real>)
    requires PassesGates(assetPresent, originalQueued, contentType)
    ensures Validate(options, record, assetPresent, originalQueued, contentType, lengthInSeconds)
         == Outcome(Report(options, record, "min_length", "minimum length", lengthInSeconds, (l, d) => l < d)
                    + Report(options, record, "max_length", "maximum length", lengthInSeconds, (l, d) => l > d),
                    None)
  {
    EachOverTwo(StepFor(lengthInSeconds), options, record, "min_length", "max_length");
    EntriesReport(options, record, lengthInSeconds);
  }

  /** The loop over either sliced key alone yields that key's report and never raises. */
  lemma EntriesReport<R>(options: map<string, Setting<R>>, record: R, lengthInSeconds: Option<real>)
    ensures Each(StepFor(lengthInSeconds), Entry(options, record, "min_length"))
         == Outcome(Report(options, record, "min_length", "minimum length", lengthInSeconds, (l, d) => l < d), None)
    ensures Each(StepFor(lengthInSeconds), Entry(options, record, "max_length"))
         == Outcome(Report(options, record, "max_length", "maximum length", lengthInSeconds, (l, d) => l > d), None)
  {
    if "min_length" in options {
      EachSingle(StepFor(lengthInSeconds), ("min_length", Resolve(options["min_length"], record)));
    }
    if "max_length" in options {
      EachSingle(StepFor(lengthInSeconds), ("max_length", Resolve(options["max_length"], record)));
    }
  }

  /** The two messages never coincide, whatever the limits. */
  lemma MessagesDiffer(a: int, b: int)
    ensures Message("minimum length", a) != Message("maximum length", b)
  {
    var minWording, maxWording := "minimum length", "maximum length";
    assert minWording[1] == 'i' && maxWording[1] == 'a';
    var min, max := Message(minWording, a), Message(maxWording, b);
    assert min[21] == min[20..34][1] == minWording[1];
    assert max[21] == max[20..34][1] == maxWording[1];
  }

  /**
   * `min_length` as written: its message is added exactly when the length
   * is unknown or the limit is below the length.
   */
  lemma MinLengthReportedIff<R>(options: map<string, Setting<R>>, record: R,
                                assetPresent: bool, originalQueued: bool, contentType: string,
                                lengthInSeconds: Option<real>, limit: int)
    requires PassesGates(assetPresent, originalQueued, contentType)
    requires "min_length" in options && Resolve(options["min_length"], record) == Int(limit)
    ensures var r := Validate(options, record, assetPresent, originalQueued, contentType, lengthInSeconds);
            r.raised.None?
            && (Message("minimum length", limit) in r.added
                <==> lengthInSeconds.None? || (limit as real) < lengthInSeconds.value)
  {
    ValidateReportsFlaggedLimits(options, record, assetPresent, originalQueued, contentType, lengthInSeconds);
    var message := Message("minimum length", limit);
    var mine := Report(options, record, "min_length", "minimum length", lengthInSeconds, (l, d) => l < d);
    var other := Report(options, record, "max_length", "maximum length", lengthInSeconds, (l, d) => l > d);
    assert message !in other by {
      if other != [] { MessagesDiffer(limit, Resolve(options["max_length"], record).n); }
    }
    assert message in mine + other <==> message in mine || message in other;
  }

  /**
   * `max_length` as written: its message is added exactly when the length
   * is unknown or the limit is above the length.
   */
  lemma MaxLengthReportedIff<R>(options: map<string, Setting<R>>, record: R,
                                assetPresent: bool, originalQueued: bool, contentType: string,
                                lengthInSeconds: Option<real>, limit: int)
    requires PassesGates(assetPresent, originalQueued, contentType)
    requires "max_length" in options && Resolve(options["max_length"], record) == Int(limit)
    ensures var r := Validate(options, record, assetPresent, originalQueued, contentType, lengthInSeconds);
            r.raised.None?
            && (Message("maximum length", limit) in r.added
                <==> lengthInSeconds.None? || (limit as real) > lengthInSeconds.value)
  {
    ValidateReportsFlaggedLimits(options, record, assetPresent, originalQueued, contentType, lengthInSeconds);
    var message := Message("maximum length", limit);
    var mine := Report(options, record, "max_length", "maximum length", lengthInSeconds, (l, d) => l > d);
    var other := Report(options, record, "min_length", "minimum length", lengthInSeconds, (l, d) => l < d);
    assert message !in other by {
      if other != [] { MessagesDiffer(Resolve(options["min_length"], record).n, limit); }
    }
    assert message in other + mine <==> message in other || message in mine;
  }

  /**
   * A limit that resolves to `nil` is skipped: when both do, nothing is
   * added, and a `nil` one never changes what the other adds.
   */
  lemma BlankLimitSkipped<R>(options: map<string, Setting<R>>, record: R,
                             assetPresent: bool, originalQueued: bool, contentType: string,
                             lengthInSeconds: Option<real>, option: string)
    requires PassesGates(assetPresent, originalQueued, contentType)
    requires option in AvailableChecks && option in options && Resolve(options[option], record).Nil?
    ensures Validate(options, record, assetPresent, originalQueued, contentType, lengthInSeconds)
         == Validate(options - {option}, record, assetPresent, originalQueued, contentType, lengthInSeconds)
  {
    ValidateReportsFlaggedLimits(options, record, assetPresent, originalQueued, contentType, lengthInSeconds);
    ValidateReportsFlaggedLimits(options - {option}, record, assetPresent, originalQueued, contentType, lengthInSeconds);
  }

  /** A limit that is present and not blank. */
  predicate Enforced<R>(options: map<string, Setting<R>>, record: R, option: string) {
    option in options && Resolve(options[option], record).Int?
  }

  /** An unknown duration fails every present, non-blank limit, minimum and maximum alike. */
  lemma UnknownLengthFailsEveryLimit<R>(options: map<string, Setting<R>>, record: R,
                                        assetPresent: bool, originalQueued: bool, contentType: string)
    requires PassesGates(assetPresent, originalQueued, contentType)
    ensures var r := Validate(options, record, assetPresent, originalQueued, contentType, None);
            && r.raised.None?
            && |r.added| == (if Enforced(options, record, "min_length") then 1 else 0)
                            + (if Enforced(options, record, "max_length") then 1 else 0)
            && (Enforced(options, record, "min_length")
                ==> Message("minimum length", Resolve(options["min_length"], record).n) in r.added)
            && (Enforced(options, record, "max_length")
                ==> Message("maximum length", Resolve(options["max_length"], record).n) in r.added)
  {
    ValidateReportsFlaggedLimits(options, record, assetPresent, originalQueued, contentType, None);
  }

  /**
   * Neither comparison is inclusive: when every enforced limit equals the
   * probed length, nothing is added.
   */
  lemma LengthEqualToLimitsNotFlagged<R>(options: map<string, Setting<R>>, record: R,
                                         assetPresent: bool, originalQueued: bool, contentType: string,
                                         seconds: int)
    requires PassesGates(assetPresent, originalQueued, contentType)
    requires Enforced(options, record, "min_length") ==> Resolve(options["min_length"], record) == Int(seconds)
    requires Enforced(options, record, "max_length") ==> Resolve(options["max_length"], record) == Int(seconds)
    ensures Validate(options, record, assetPresent, originalQueued, contentType, Some(seconds as real)) == Nothing
  {
    ValidateReportsFlaggedLimits(options, record, assetPresent, originalQueued, contentType, Some(seconds as real));
  }

  /** An attached, processed `video/mp4` upload passes the gate. */
  lemma Mp4PassesGates()
    ensures PassesGates(true, true, "video/mp4")
  {
    SplitFirstOfMimeType("video", "mp4");
    assert "video" + "/" + "mp4" == "video/mp4";
    assert !IsSpace("video/mp4"[0]);
  }

  /**
   * The comparisons read backwards against the comments beside them: with
   * `min_length: 10` on a `video/mp4`, a 15-second video is flagged and a
   * 5-second one is not.
   */
  lemma MinLengthFlagsLongerVideos<R>(record: R)
    ensures var options := map["min_length" := Literal(Int(10))];
            && Validate(options, record, true, true, "video/mp4", Some(15.0))
               == Outcome([Message("minimum length", 10)], None)
            && Validate(options, record, true, true, "video/mp4", Some(5.0)) == Nothing
  {
    var options: map<string, Setting<R>> := map["min_length" := Literal(Int(10))];
    Mp4PassesGates();
    ValidateReportsFlaggedLimits(options, record, true, true, "video/mp4", Some(15.0));
    ValidateReportsFlaggedLimits(options, record, true, true, "video/mp4", Some(5.0));
  }

  /**
   * And with `max_length: 15`, a 20-second video passes while a 5-second
   * one is flagged.
   */
  lemma MaxLengthFlagsShorterVideos<R>(record: R)
    ensures var options := map["max_length" := Literal(Int(15))];
            && Validate(options, record, true, true, "video/mp4", Some(5.0))
               == Outcome([Message("maximum length", 15)], None)
            && Validate(options, record, true, true, "video/mp4", Some(20.0)) == Nothing
  {
    var options: map<string, Setting<R>> := map["max_length" := Literal(Int(15))];
    Mp4PassesGates();
    ValidateReportsFlaggedLimits(options, record, true, true, "video/mp4", Some(5.0));
    ValidateReportsFlaggedLimits(options, record, true, true, "video/mp4", Some(20.0));
  }

  /** A primary type other than `video` is never measured and adds nothing. */
  lemma NonVideoContentTypesIgnored<R>(options: map<string, Setting<R>>, record: R,
                                       assetPresent: bool, originalQueued: bool, contentType: string,
                                       lengthInSeconds: Option<real>, kind: string)
    requires SplitFirst(contentType) == Some(kind) && kind != "video"
    ensures Validate(options, record, assetPresent, originalQueued, contentType, lengthInSeconds) == Nothing
  {
  }

  /** Only `video` is measured: an image adds nothing, whatever the options say. */
  lemma ImagesAreNotMeasured<R>(options: map<string, Setting<R>>, record: R, lengthInSeconds: Option<real>)
    ensures Validate(options, record, true, true, "image/png", lengthInSeconds) == Nothing
  {
    SplitFirstOfMimeType("image", "png");
    assert "image" + "/" + "png" == "image/png";
    assert !IsSpace("image/png"[0]);
  }

  /**
   * `validate_each` over the record: appends the messages of `Validate` to
   * `errors` under `attrName`.
   */
  method ValidateEach<R>(options: map<string, Setting<R>>, record: R, errors: Errors, attrName: string,
                         assetPresent: bool, originalQueued: bool, contentType: string,
                         lengthInSeconds: Option<real>)
    returns (raised: Option<RubyError>)
    modifies errors
    ensures var r := Validate(options, record, assetPresent, originalQueued, contentType, lengthInSeconds);
            errors.entries == old(errors.entries) + Tagged(attrName, r.added) && raised == r.raised
  {
    if !assetPresent {
      return None;
    }
    if !originalQueued || IsBlank(contentType) {
      return None;
    }
    var first := SplitFirst(contentType);
    if first.None? {
      return Some(NoMethodError("to_sym"));
    }
    if first.value !in ValidContentTypes {
      return None;
    }
    CheckLimits(options, record, errors, attrName, lengthInSeconds);
    return None;
  }

  /** The `each` loop of `validate_each`, over the sliced options. */
  method CheckLimits<R>(options: map<string, Setting<R>>, record: R, errors: Errors, attrName: string,
                        lengthInSeconds: Option<real>)
    modifies errors
    ensures var r := Each(StepFor(lengthInSeconds), ResolvedSlice(options, record, AvailableChecks));
            errors.entries == old(errors.entries) + Tagged(attrName, r.added) && r.raised.None?
  {
    var keys := SliceKeys(options.Keys, AvailableChecks);
    ghost var entries := ResolvedSlice(options, record, AvailableChecks);
    ghost var step := StepFor(lengthInSeconds);
    ProgressStart(step, entries, attrName, errors.entries);
    var i := 0;
    while i < |keys|
      invariant Progress(step, entries, attrName, old(errors.entries), errors.entries, i)
    {
      var option := keys[i];
      CheckLimitsTurn(options, record, lengthInSeconds, attrName, old(errors.entries), errors.entries, i);
      CheckOption(options[option], record, errors, attrName, option, lengthInSeconds);
      i := i + 1;
    }
    ProgressEnd(step, entries, attrName, old(errors.entries), errors.entries, i);
  }

  /** One turn of `CheckLimits` appends the `i`-th sliced option's `Step` and keeps `Progress`. */
  lemma CheckLimitsTurn<R>(options: map<string, Setting<R>>, record: R, lengthInSeconds: Option<real>,
                           attrName: string, base: seq<ErrorEntry>, current: seq<ErrorEntry>, i: nat)
    requires Progress(StepFor(lengthInSeconds), ResolvedSlice(options, record, AvailableChecks), attrName, base, current, i)
    requires i < |SliceKeys(options.Keys, AvailableChecks)|
    ensures var option := SliceKeys(options.Keys, AvailableChecks)[i];
            && option in options
            && Progress(StepFor(lengthInSeconds), ResolvedSlice(options, record, AvailableChecks), attrName, base,
                        current + Tagged(attrName, Step(lengthInSeconds, option, Resolve(options[option], record)).added), i + 1)
  {
    var entries := ResolvedSlice(options, record, AvailableChecks);
    var option := SliceKeys(options.Keys, AvailableChecks)[i];
    var value := Resolve(options[option], record);
    assert entries[i] == (option, value);
    assert StepFor(lengthInSeconds)(option, value) == Step(lengthInSeconds, option, value);
    ProgressTurn(StepFor(lengthInSeconds), entries, attrName, base, current, i, option, value);
  }

  /** The block of the `each` loop, for one sliced option. */
  method CheckOption<R>(setting: Setting<R>, record: R, errors: Errors, attrName: string,
                        option: string, lengthInSeconds: Option<real>)
    modifies errors
    ensures errors.entries
         == old(errors.entries) + Tagged(attrName, Step(lengthInSeconds, option, Resolve(setting, record)).added)
  {
    var value := Resolve(setting, record);
    // `next if option_value.blank?`
    if IsBlankValue(value) {
      return;
    }
    if LimitsExceeded(option, value, lengthInSeconds) {
      errors.Add(attrName, Message(OptionString(option), value.n));
    }
  }
}
