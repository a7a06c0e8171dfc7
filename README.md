# Paperclip attachment validators in Dafny

This project models the decision logic of the two ActiveModel validators of
a Paperclip extension:

- `AttachmentDimensionsValidator` probes an image or a video for its width
  and height. It reports each configured axis limit (`max_x`, `max_y`) that
  the asset reaches or passes.
- `AttachmentVideoLengthValidator` probes a video for its duration. It
  reports the configured length limits (`min_length`, `max_length`) that its
  comparisons flag.

Each validator is modelled in two layers:

- `Validate` is a pure function. Its inputs are the option hash, the record,
  whether the attachment is present, whether an original file is queued, the
  content-type string and the probe result. It returns an `Outcome`: the
  messages the validator adds, in order, and the exception it ends with, if any.
- `ValidateEach` is a method. It walks the same gates and the same `each`
  loop, appending to an `Errors` object, the model of `record.errors`. Its
  contract ties the new error list to `Validate`.

Files:

- `wrappers.dfy`: `Option`, the model of Ruby's `nil`.
- `ruby_text.dfy`: the Ruby behaviour the validators lean on. This is
  `String#blank?`, the first field of `String#split('/')`, and `Integer#to_s`
  with a parser as its inverse.
- `validator_support.dfy`: what both validators share. This covers option
  values and Procs, the key order of `Hash#slice`, the `Outcome` of one run,
  the generic `each` loop and the `Errors` list.
- `attachment_dimensions_validator.dfy`, `attachment_video_length_validator.dfy`:
  one module per source file.

Points where the model follows the code rather than its comments:

- **Inverted length comparisons.** The length validator flags `min_length`
  when `limit < length`. It flags `max_length` when `limit > length`. So a
  video LONGER than its minimum is flagged, and so is one SHORTER than its
  maximum. The comments beside those lines say the opposite. The model keeps the code. `MinLengthFlagsLongerVideos` and
  `MaxLengthFlagsShorterVideos` show the consequence on concrete inputs.
- **Check order.** `options.slice(*AVAILABLE_CHECKS)` builds its result by
  walking the requested keys. The `each` loop therefore visits `max_x`
  before `max_y`, and `min_length` before `max_length`, whatever order the
  options hash has.
- **`nil` dimension limit.** The dimensions validator does not skip a limit
  that resolves to `nil`. `x_val >= nil` raises `ArgumentError`. Messages
  added earlier in the same loop stay on the record. The model returns this
  as `Outcome(added, Some(ArgumentError(...)))` and needs no precondition;
  `ReachedXKeptWhenNilYRaises` states the kept X-axis message.
- **Slashes-only content type.** A content type made only of slashes (`"/"`)
  is not blank, but `split('/')` gives `[]`. Then `nil.to_sym` raises
  `NoMethodError`. Both validators model this.

## Model

| member | source | states |
|---|---|---|
| `RubyText.SplitFirst` | lib/paperclip/validators/attachment_dimensions_validator.rb:25 | the primary type is `nil` exactly when the string is all slashes; otherwise it is the slash-free prefix ending at the first `/` |
| `RubyText.SplitFirstOfMimeType` | lib/paperclip/validators/attachment_dimensions_validator.rb:25 | the primary type of `type/subtype` is `type` |
| `RubyText.BlankStrings` | lib/paperclip/validators/attachment_dimensions_validator.rb:23 | on three examples: `blank?` holds for `""` and for `" \t\r\n"`, and fails for `"  video/mp4"` |
| `RubyText.IntToS` | lib/paperclip/validators/attachment_dimensions_validator.rb:38 | `Integer#to_s` is never empty and starts with `-` exactly for negative integers |
| `RubyText.IntToSRoundTrip` | lib/paperclip/validators/attachment_dimensions_validator.rb:38 | the limit written into a message reads back as the same integer |
| `RubyText.IntToSInjective` | lib/paperclip/validators/attachment_video_length_validator.rb:41 | two limits give the same message text only when they are equal |
| `ValidatorSupport.Resolve` | lib/paperclip/validators/attachment_dimensions_validator.rb:34 | a literal limit is used as it is; a Proc limit is called with the record |
| `ValidatorSupport.Then` | lib/paperclip/validators/attachment_dimensions_validator.rb:33-40 | a step that raised ends the run as it is; otherwise the next step's messages follow and its exception is the run's |
| `ValidatorSupport.EachStep` | lib/paperclip/validators/attachment_dimensions_validator.rb:33-40 | `Each`, the `each` loop: a turn after turns that did not raise adds that option's messages after theirs and ends as that option's step ends |
| `ValidatorSupport.ProgressTurn` | lib/paperclip/validators/attachment_dimensions_validator.rb:33-40 | the invariant of both loops (the error list is the old list followed by what `Each` adds over the options visited so far) survives a turn that does not raise |
| `ValidatorSupport.ProgressRaise` | lib/paperclip/validators/attachment_dimensions_validator.rb:33-40 | a turn that raises leaves the error list as the old list followed by everything the whole `Each` adds, and the run raises that turn's exception |
| `ValidatorSupport.SliceKeys` | lib/paperclip/validators/attachment_dimensions_validator.rb:33 | `Hash#slice` keeps exactly the requested keys that are present, each once, at most one per requested key |
| `ValidatorSupport.SliceTwoKeys` | lib/paperclip/validators/attachment_video_length_validator.rb:33 | slicing two distinct keys keeps them in the requested order, not the hash's order |
| `ValidatorSupport.ResolvedSlice` | lib/paperclip/validators/attachment_dimensions_validator.rb:33-34 | each sliced option carries its value after a Proc is called on the record |
| `ValidatorSupport.EachOverTwo` | lib/paperclip/validators/attachment_dimensions_validator.rb:33-40 | the loop over a two-key check list visits the first key's option, then the second's, each only when present |
| `ValidatorSupport.EachExtend` | lib/paperclip/validators/attachment_dimensions_validator.rb:33-40 | one more turn of the loop is the earlier turns followed by one step |
| `ValidatorSupport.EachStopsAtRaise` | lib/paperclip/validators/attachment_dimensions_validator.rb:33-40 | once a step raises, the remaining options play no part |
| `ValidatorSupport.EachConcat` | lib/paperclip/validators/attachment_video_length_validator.rb:33-43 | the loop over two runs of options is the first run followed by the second |
| `ValidatorSupport.EachAddsAtMostOnePerEntry` | lib/paperclip/validators/attachment_video_length_validator.rb:33-43 | a loop whose steps add at most one message adds at most one per option |
| `ValidatorSupport.Errors.Add` | lib/paperclip/validators/attachment_dimensions_validator.rb:38 | `errors.add` appends one (attribute, message) entry and changes nothing else |
| `AttachmentDimensionsValidator.CheckValidity` | lib/paperclip/validators/attachment_dimensions_validator.rb:43-47 | raises `ArgumentError` with the fixed message exactly when neither `max_x` nor `max_y` is a key; values play no part |
| `AttachmentDimensionsValidator.ProbedDimensions` | lib/paperclip/validators/attachment_dimensions_validator.rb:57-69 | a blank file or a blank probe reads as 0x0; otherwise the probed width and height |
| `AttachmentDimensionsValidator.ExtractDimensions` | lib/paperclip/validators/attachment_dimensions_validator.rb:51-55 | an image is measured by the image probe, a video by the video probe, and any other primary type reads as 0x0 |
| `AttachmentDimensionsValidator.DimensionsExceeded` | lib/paperclip/validators/attachment_dimensions_validator.rb:71-75 | `max_x` compares the width and `max_y` the height with `>=`; a `nil` limit under either key raises; any other key counts as exceeded without comparing anything |
| `AttachmentDimensionsValidator.AxisString` | lib/paperclip/validators/attachment_dimensions_validator.rb:77-80 | `X-axis` exactly for `max_x`, `Y-axis` exactly for `max_y`, and `nil` (empty once interpolated) for any other key |
| `AttachmentDimensionsValidator.Message` | lib/paperclip/validators/attachment_dimensions_validator.rb:38 | the message is the axis name, then ` cannot exceed `, then the limit as `"#{...}"` renders it (`ValueToS`: `""` for `nil`); nothing follows the fixed words exactly when the limit is `nil` |
| `AttachmentDimensionsValidator.MessageLimitReadsBack` | lib/paperclip/validators/attachment_dimensions_validator.rb:38 | the text after ` cannot exceed ` parses back to the limit |
| `AttachmentDimensionsValidator.Step` | lib/paperclip/validators/attachment_dimensions_validator.rb:34-39 | one turn raises exactly when a recognised key's limit is `nil`, and then adds nothing; it adds at most one message |
| `AttachmentDimensionsValidator.UnknownOptionAlwaysReported` | lib/paperclip/validators/attachment_dimensions_validator.rb:74 | a key outside `max_x`/`max_y` would add ` cannot exceed <limit>` and never raise, even for a `nil` limit |
| `AttachmentDimensionsValidator.MessageText` | lib/paperclip/validators/attachment_dimensions_validator.rb:77-78 | `max_x` is named `X-axis` in its message: the message for `max_x: 1920` reads `X-axis cannot exceed 1920` |
| `AttachmentDimensionsValidator.NegativeLimitText` | lib/paperclip/validators/attachment_dimensions_validator.rb:38 | the limit is interpolated with its sign: the message for `max_y: -5` reads `Y-axis cannot exceed -5` |
| `AttachmentDimensionsValidator.Validate` | lib/paperclip/validators/attachment_dimensions_validator.rb:17-41 | nothing is added when the asset is absent, no original is queued or the content type is blank; at most one message per recognised option present |
| `AttachmentDimensionsValidator.ValidateReportsReachedLimits` | lib/paperclip/validators/attachment_dimensions_validator.rb:33-40 | past the gates, with numeric limits, the result is the X-axis message when width >= limit, then the Y-axis message when height >= limit, and no exception |
| `AttachmentDimensionsValidator.MaxXReportedIffWidthReachesLimit` | lib/paperclip/validators/attachment_dimensions_validator.rb:71-72 | `X-axis cannot exceed L` is added if and only if the width is >= L |
| `AttachmentDimensionsValidator.MaxYReportedIffHeightReachesLimit` | lib/paperclip/validators/attachment_dimensions_validator.rb:73 | `Y-axis cannot exceed L` is added if and only if the height is >= L |
| `AttachmentDimensionsValidator.LimitReachedExactlyIsReported` | lib/paperclip/validators/attachment_dimensions_validator.rb:72 | a 1920-wide PNG under `max_x: 1920` gets the X-axis error: equality counts |
| `AttachmentDimensionsValidator.FailedProbeReadsAsZero` | lib/paperclip/validators/attachment_dimensions_validator.rb:58-68 | after a failed probe, a limit is reported if and only if it is <= 0 |
| `AttachmentDimensionsValidator.NilLimitRaises` | lib/paperclip/validators/attachment_dimensions_validator.rb:33-37 | the run raises `ArgumentError` exactly when a recognised limit resolves to `nil`; a `nil` X limit raises before anything is added |
| `AttachmentDimensionsValidator.ReachedXKeptWhenNilYRaises` | lib/paperclip/validators/attachment_dimensions_validator.rb:33-40 | past the gates, with a numeric X limit and a `nil` Y limit, the result is the X-axis message when width >= limit (none otherwise) together with the raised `ArgumentError`: the earlier message is kept |
| `AttachmentDimensionsValidator.OtherOptionsIgnored` | lib/paperclip/validators/attachment_dimensions_validator.rb:33 | two option hashes that agree on `max_x` and `max_y` validate alike |
| `AttachmentDimensionsValidator.OtherContentTypesIgnored` | lib/paperclip/validators/attachment_dimensions_validator.rb:25-26 | a primary type other than `image` or `video` adds nothing and raises nothing |
| `AttachmentDimensionsValidator.AudioIsNotMeasured` | lib/paperclip/validators/attachment_dimensions_validator.rb:25-26 | `audio/mpeg` adds nothing, whatever the options |
| `AttachmentDimensionsValidator.SlashesOnlyContentTypeRaises` | lib/paperclip/validators/attachment_dimensions_validator.rb:25 | a content type of `/` raises `NoMethodError` and adds nothing |
| `AttachmentDimensionsValidator.ValidateEach` | lib/paperclip/validators/attachment_dimensions_validator.rb:17-41 | the record's errors become the old errors followed by `Validate`'s messages under the attribute; the exception returned is `Validate`'s |
| `AttachmentDimensionsValidator.CheckLimits` | lib/paperclip/validators/attachment_dimensions_validator.rb:33-40 | the loop appends each step's message in slice order and stops at the first `nil` limit |
| `AttachmentDimensionsValidator.CheckOption` | lib/paperclip/validators/attachment_dimensions_validator.rb:34-39 | one turn of the block resolves a Proc limit, appends the axis message when the limit is reached, and raises on a `nil` limit |
| `AttachmentVideoLengthValidator.CheckValidity` | lib/paperclip/validators/attachment_video_length_validator.rb:46-50 | raises `ArgumentError` with the fixed message exactly when neither `min_length` nor `max_length` is a key |
| `AttachmentVideoLengthValidator.LimitsExceeded` | lib/paperclip/validators/attachment_video_length_validator.rb:54-66 | a blank limit is never exceeded; with no duration, every non-blank limit is exceeded |
| `AttachmentVideoLengthValidator.OptionString` | lib/paperclip/validators/attachment_video_length_validator.rb:68-71 | `minimum length` exactly for `min_length`, `maximum length` exactly for `max_length`, and `nil` (empty once interpolated) for any other key |
| `AttachmentVideoLengthValidator.Message` | lib/paperclip/validators/attachment_video_length_validator.rb:41 | the message is `Asset cannot exceed `, then the wording, then ` of `, then the limit's decimal text (`IntToS(limit)`), which is not empty |
| `AttachmentVideoLengthValidator.MessageLimitReadsBack` | lib/paperclip/validators/attachment_video_length_validator.rb:41 | the text after the wording and ` of ` parses back to the limit |
| `AttachmentVideoLengthValidator.Step` | lib/paperclip/validators/attachment_video_length_validator.rb:34-42 | one turn never raises and adds at most one message |
| `AttachmentVideoLengthValidator.Validate` | lib/paperclip/validators/attachment_video_length_validator.rb:17-44 | nothing is added when the asset is absent, no original is queued or the content type is blank; at most one message per recognised option present |
| `AttachmentVideoLengthValidator.ValidateReportsFlaggedLimits` | lib/paperclip/validators/attachment_video_length_validator.rb:33-43 | past the gates, the result is the minimum-length message, then the maximum-length message, each for a non-blank limit when the duration is absent or the written comparison holds; never an exception |
| `AttachmentVideoLengthValidator.MessagesDiffer` | lib/paperclip/validators/attachment_video_length_validator.rb:68-71 | the minimum-length and maximum-length messages never coincide |
| `AttachmentVideoLengthValidator.MinLengthReportedIff` | lib/paperclip/validators/attachment_video_length_validator.rb:59-62 | the `min_length` message is added if and only if the duration is absent or limit < duration |
| `AttachmentVideoLengthValidator.MaxLengthReportedIff` | lib/paperclip/validators/attachment_video_length_validator.rb:64-65 | the `max_length` message is added if and only if the duration is absent or limit > duration |
| `AttachmentVideoLengthValidator.BlankLimitSkipped` | lib/paperclip/validators/attachment_video_length_validator.rb:37 | a recognised limit that resolves to `nil` gives the same result as leaving the key out |
| `AttachmentVideoLengthValidator.UnknownLengthFailsEveryLimit` | lib/paperclip/validators/attachment_video_length_validator.rb:59 | with no duration, exactly one message is added for each present non-blank limit, minimum and maximum alike |
| `AttachmentVideoLengthValidator.LengthEqualToLimitsNotFlagged` | lib/paperclip/validators/attachment_video_length_validator.rb:62-65 | a duration equal to every enforced limit adds nothing: both comparisons are strict |
| `AttachmentVideoLengthValidator.MinLengthFlagsLongerVideos` | lib/paperclip/validators/attachment_video_length_validator.rb:61-62 | with `min_length: 10`, a 15-second video is flagged and a 5-second one is not, the reverse of the comment |
| `AttachmentVideoLengthValidator.MaxLengthFlagsShorterVideos` | lib/paperclip/validators/attachment_video_length_validator.rb:64-65 | with `max_length: 15`, a 5-second video is flagged and a 20-second one is not, the reverse of the comment |
| `AttachmentVideoLengthValidator.NonVideoContentTypesIgnored` | lib/paperclip/validators/attachment_video_length_validator.rb:25-26 | a primary type other than `video` adds nothing and raises nothing |
| `AttachmentVideoLengthValidator.ImagesAreNotMeasured` | lib/paperclip/validators/attachment_video_length_validator.rb:25-26 | `image/png` adds nothing, whatever the options |
| `AttachmentVideoLengthValidator.ValidateEach` | lib/paperclip/validators/attachment_video_length_validator.rb:17-44 | the record's errors become the old errors followed by `Validate`'s messages under the attribute; the exception returned is `Validate`'s |
| `AttachmentVideoLengthValidator.CheckLimits` | lib/paperclip/validators/attachment_video_length_validator.rb:33-43 | the loop skips blank limits, appends each flagged limit's message in slice order, and never raises |
| `AttachmentVideoLengthValidator.CheckOption` | lib/paperclip/validators/attachment_video_length_validator.rb:34-42 | one turn of the block resolves a Proc limit, skips it when blank, and otherwise appends the length message when the limit is flagged |

## Left out

- The probes are inputs, not models. These are `Paperclip::Geometry.from_file` (ImageMagick), `Paperclip::VideoGeometry.from_file` and `Paperclip::VideoDuration.from_file_path` (both ffprobe through the `ffprober` gem). `None` stands for a blank result. The probes run external processes, which Dafny cannot model.
- `lib/paperclip/video_duration.rb` and `lib/paperclip/video_geometry.rb` are not part of this model. They are thin wrappers over the ffprobe parser.
- `width.to_i`, `duration.to_f` and IEEE floats: widths and heights are `int` and durations are `real`.
- Limits are Integers or `nil` (`Value = Nil | Int`). A Float, String or other limit is not modelled, nor is Ruby's `Float#to_s` rendering of one.
- Procs are modelled as total functions of the record. Their side effects and exceptions are not modelled.
- `String#blank?` is modelled over ASCII whitespace only. The Unicode members of `[[:space:]]` are not modelled.
- ActiveModel plumbing: `read_attribute_for_validation`, the `<attr>_content_type` reader and `queued_for_write[:original]` become the `assetPresent`, `contentType` and `originalQueued` inputs. A `nil` content type is modelled as the empty string, which is blank just as `nil` is. `errors.add` is an append to a list. Message localisation is not modelled.
- The `check_validity!` call made by the validator's constructor is modelled as a separate function. The constructor itself is framework code.
- The `HelperMethods` registration helpers are framework glue. Note that `validates_video_length` registers `AttachmentDimensionsValidator`, not the length validator (lib/paperclip/validators/attachment_video_length_validator.rb:81-82).
- Unknown option keys cannot reach the block, because only the sliced keys `max_x`/`max_y` and `min_length`/`max_length` do. The model still follows the code for them. `dimensions_exceeded?` returns `true` for an unknown key without comparing, so even a `nil` limit would add ` cannot exceed <limit>` and not raise (`UnknownOptionAlwaysReported`). `limits_exceeded?` returns `true` for an unknown key when the duration is absent, because that test comes first. With a duration it returns `nil`, which the model reads as `false`.
- The length validator probes `asset.path` (lib/paperclip/validators/attachment_video_length_validator.rb:28). The dimensions validator probes the queued original (lib/paperclip/validators/attachment_dimensions_validator.rb:21, 28). Both probe results are inputs here, so the model does not say which file was read. In the length validator, the queued original only gates the run (line 23).
