# blendersrc: the buffer-production state machine

`blendersrc` is a GStreamer push source. It renders the frames of a Blender
scene one at a time and pushes each rendered PNG file as a buffer. This
project models its bookkeeping in Dafny:

- the properties (`location`, `start-frame`, `end-frame`, `output-location`,
  `prefix`, `delete`);
- the validity flag, which a bad location clears for good;
- the frame cursor `index`;
- the cached stream duration, which makes the element seekable and answers
  duration queries;
- the name of the file each frame is rendered to;
- the timestamps, duration and offsets of each buffer;
- the conversion of a seek position back into a frame.

There are two versions of the element, and both are modelled:

- the current one, `src/python/gstblendersrc.py`: modules `Naming`, `Timing`,
  `Properties`, `Production` and `BlenderSrc`;
- the older one, `python/gstblendersrc.py`: module `Legacy`.

`do_set_property` and `do_get_property` are the same in both versions, so the
`Properties` module serves both.

How the model is built:

- Blender's renderer is a parameter. `rendered: Option<Bytes>` says whether
  the render wrote a file to the output path, and with which bytes.
- The file system is the class `Disk.FileSystem`: a map from paths to
  contents plus a set of directories.
- Each class (`BlenderSrc.GstBlenderSrc`, `Legacy.GstBlenderSrc`) updates its
  fields in place. Each of its methods is proved to have exactly the effect of
  a pure step function (`SetStep`, `CreateStep`, `SeekStep`, `QueryStep`,
  `LegacyCreateStep`) on the snapshot `State()` of its fields.
- The lemmas state what the element promises about those step functions.

The `delete` setter assigns an attribute spelled `detele`. It therefore never
changes the `delete` flag that `do_get_property` returns and `read_frame`
consults. The model keeps this exactly as written, as the field
`Props.detele`.

Module map:

- `common.dfy`: byte, Option, Result.
- `naming.dfy`: `%09d`, `os.path.join`, the output path.
- `timing.dfy`: the frame count, duration, timestamp and seek arithmetic.
- `disk.dfy`: the file system.
- `properties.dfy`: `do_set_property` and `do_get_property`.
- `production.dfy`: `do_create`, `do_is_seekable`, `do_do_seek` and
  `do_query`, as step functions.
- `blendersrc.dfy`: the current element as a class.
- `legacy.dfy`: the older element.

## Model

| member | source | states |
|---|---|---|
| Properties.InitialProps | src/python/gstblendersrc.py:110-122 | a fresh element is valid, has no scene, and has its cursor at the start frame, which is at most the end frame |
| Properties.GetOf | src/python/gstblendersrc.py:124-140 | reading a property fails exactly for an unknown name, with an unknown-property error; a known property returns a value of its declared type |
| Properties.SetStep | src/python/gstblendersrc.py:142-169 | no set makes an invalid element valid again; a set that raises for a known property leaves the element invalid; a set raises an unknown-property error exactly when the name is unknown; no set changes `delete` |
| Properties.SetThenGet | src/python/gstblendersrc.py:142-169 | a property reads back the value it was set to when the set did not raise; `location` reads back even after a raise |
| Properties.SetLeavesOtherProperties | src/python/gstblendersrc.py:142-169 | setting one property never changes what any other property reads back |
| Properties.DeleteSetterHasNoEffect | src/python/gstblendersrc.py:164-165 | the `delete` setter only records `detele`: `delete` and the value read back are unchanged |
| Properties.FrameSettersAndCursor | src/python/gstblendersrc.py:152-155 | `start-frame` sets both the start frame and the cursor; `end-frame` changes only the end frame and leaves the cursor alone |
| Properties.LocationSetter | src/python/gstblendersrc.py:143-147 | `location` is stored in every case; a missing file clears validity and raises; an existing file is opened as the scene |
| Properties.OutputLocationSetter | src/python/gstblendersrc.py:156-161 | a set raises exactly when the element is valid and the value is not a directory; a raise clears validity and keeps the old output location; otherwise the value is stored unchecked |
| Properties.UnknownPropertyIsRejected | src/python/gstblendersrc.py:166-169 | an unknown name raises and changes nothing, for both setting and getting |
| Timing.CountFrames | src/python/gstblendersrc.py:194-195 | the frame count is positive exactly when start is at most end |
| Timing.SeekIndex | src/python/gstblendersrc.py:224-225 | a seek never moves the cursor before the start frame |
| Timing.CalculateDuration | src/python/gstblendersrc.py:197-199 | `calculate_duration` is the exact length of the frame range in nanoseconds, rounded down: its product with `num` is at most `SECOND * count * denom`, and the next multiple is above it |
| Timing.FrameDuration | src/python/gstblendersrc.py:267 | a buffer's duration is the exact frame period `SECOND * denom / num`, rounded down to a nanosecond |
| Timing.Pts | src/python/gstblendersrc.py:267-269 | a buffer's timestamp is never later than its frame's exact start time, and equals it at whole-nanosecond frame periods |
| Timing.SeekLandsInSlot | src/python/gstblendersrc.py:224-225 | a seek lands on the frame whose time slot holds the position |
| Timing.PtsSpacing | src/python/gstblendersrc.py:267-269 | consecutive timestamps are exactly one buffer duration apart |
| Timing.DurationCoversFrames | src/python/gstblendersrc.py:197-199 | the cached duration is at least frame count times buffer duration, and equal to it when the frame period is a whole number of nanoseconds |
| Timing.SeekInvertsPts | src/python/gstblendersrc.py:218-226 | seeking to a buffer's timestamp returns the cursor to that buffer's frame, at whole-nanosecond frame periods (always so at the fixed 1/1) |
| Timing.DefaultFramerateIsExact | src/python/gstblendersrc.py:117 | at the fixed 1/1 frame rate every buffer lasts exactly one second |
| Naming.DecimalDigitsShape | src/python/gstblendersrc.py:177 | the printed frame number is a non-empty numeral without a leading zero |
| Naming.ZeroPadShape | src/python/gstblendersrc.py:177 | padding keeps the numeral as a suffix, adds only zeros and never truncates |
| Naming.FrameNumberShape | src/python/gstblendersrc.py:177 | the padded frame number is all digits and at least nine long |
| Naming.FrameNumberWidth | src/python/gstblendersrc.py:177 | the padded number is exactly nine long iff the frame is below 10^9; otherwise it is the full numeral |
| Naming.FrameNumberRoundTrip | src/python/gstblendersrc.py:177 | the padded frame number parses back to the frame |
| Naming.FrameFileNameParts | src/python/gstblendersrc.py:176-180 | `FrameFileName` (`build_current_filename`) is the prefix, then a numeral of at least nine digits that reads back as the frame, then `.png` |
| Naming.FrameFileNameInjective | src/python/gstblendersrc.py:176-180 | two frames never get the same file name |
| Naming.JoinPathSplit | src/python/gstblendersrc.py:184 | `JoinPath` (`os.path.join` of two components): the joined path is the directory, at most one inserted separator, and then the name; an absolute name replaces the directory |
| Naming.OutputPathSplit | src/python/gstblendersrc.py:182-184 | `OutputPath` (`build_current_output_path`): an output path is the lead, the prefix, the padded number and `.png`, and the lead does not depend on the frame |
| Naming.OutputPathInjective | src/python/gstblendersrc.py:182-184 | two frames never get the same output path, so no render overwrites another frame's file |
| Naming.ExampleFrameNumbers | src/python/gstblendersrc.py:177 | frames 1 and 3 are printed as `000000001` and `000000003` |
| Naming.ExampleFileName | src/python/gstblendersrc.py:176-180 | prefix `f` at frame 1 gives `f000000001.png` |
| Naming.ExampleOutputPath | src/python/gstblendersrc.py:182-184 | frame 3 goes to `/tmp/f000000003.png` whether or not the directory ends in a separator |
| Production.Initial | src/python/gstblendersrc.py:106-122 | a fresh element is valid, has no cached duration, runs at 1/1 and deletes rendered files |
| Production.CreateStep | src/python/gstblendersrc.py:247-276 | only the cursor changes among the properties; the call fails exactly when the element is invalid; a buffer comes back exactly on OK; the cursor grows by one exactly on OK; an OK leaves a duration cached |
| Production.InvalidIsTerminal | src/python/gstblendersrc.py:248-249 | an invalid element returns ERROR and changes nothing |
| Production.InvalidRunIsAllErrors | src/python/gstblendersrc.py:248-249 | once invalid, every call of any sequence returns ERROR and changes nothing |
| Production.OutOfRangeIsEos | src/python/gstblendersrc.py:251-252 | a cursor outside the range gives EOS and changes nothing, not even the cached duration |
| Production.EmptyRangeIsImmediateEos | src/python/gstblendersrc.py:251-252 | a range whose end precedes its start ends the stream on the first call |
| Production.Render | src/python/gstblendersrc.py:190-192 | the renderer's effect: a written render is at the output path with its bytes, no render leaves the files as they were, and no other file changes |
| Production.ReadFrame | src/python/gstblendersrc.py:201-209 | `read_frame` returns bytes exactly when the file exists, and then they are the file's; the file is removed exactly when `delete` is set; every other file keeps its contents |
| Production.MakeBuffer | src/python/gstblendersrc.py:263-272 | the buffer holds the file's bytes; its offset is the cursor's distance from the start frame, its offset end one more, and its timestamp the offset times its duration, which is the frame period rounded down |
| Production.SceneLessEmptyRangeIsEos | src/python/gstblendersrc.py:251-252 | a fresh element with no scene, given a start frame past its end frame, gets EOS on its first call with nothing changed; no scene is needed for that |
| Production.ProducedBuffer | src/python/gstblendersrc.py:254-274 | on OK the buffer holds the rendered file's bytes; offset is index minus start, offset end is offset plus one, pts is offset times the buffer duration; the cursor grows by one; the range's duration is cached; the render path is the frame's output path |
| Production.RenderedFrameIsProduced | src/python/gstblendersrc.py:256-276 | when the renderer writes the frame, the call returns OK with exactly that buffer and moves the cursor on by one |
| Production.MissingFrameIsEos | src/python/gstblendersrc.py:254-261 | with no file at the output path the call returns EOS with the cursor unchanged, yet the element is now seekable |
| Production.RenderedFileCleanup | src/python/gstblendersrc.py:201-209 | after OK the rendered file is gone if `delete` is set and kept with the buffer's bytes otherwise; no other file changes |
| Production.DurationAfterProduction | src/python/gstblendersrc.py:254 | after OK the cached duration is the frame count times the buffer duration, at whole-nanosecond frame periods |
| Production.RunProducesEveryFrame | src/python/gstblendersrc.py:267-274 | from any cursor in the range, with every render succeeding, each call up to the end frame produces its render with consecutive offsets; the next call gives EOS with the cursor just past the end |
| Production.StreamFromStartFrame | src/python/gstblendersrc.py:251-274 | from the start frame of a non-empty range there are exactly end - start + 1 OK buffers with offsets 0, 1, ... spaced one buffer duration apart, then EOS |
| Production.SeekStep | src/python/gstblendersrc.py:218-226 | a seek succeeds exactly when the rate is not negative; only the cursor can change in the element; a refused seek changes nothing; an accepted one sets the segment's time to its start, changes nothing else in the segment, and never puts the cursor before the start frame |
| Production.SeekLandsOnFrame | src/python/gstblendersrc.py:223-225 | an accepted seek puts the cursor on the frame whose time slot, counted from the start frame, holds the segment's position |
| Production.ReverseSeekIsRefused | src/python/gstblendersrc.py:220-222 | a negative rate returns false and leaves the element and the segment unchanged |
| Production.SeekToProducedBuffer | src/python/gstblendersrc.py:218-226 | seeking to the timestamp of the buffer just produced moves the cursor back to its frame and sets the segment time to the segment start, at whole-nanosecond frame periods (always so at the fixed 1/1) |
| Production.SeekableOnceRendered | src/python/gstblendersrc.py:212-215 | a fresh element is not seekable; any call past the range check makes it seekable, and it stays so |
| Production.QueryStep | src/python/gstblendersrc.py:233-244 | the element answers a query itself exactly when it is a duration query in time format; every other query goes to the base class unchanged |
| Production.DurationQueryAnswer | src/python/gstblendersrc.py:235-241 | a time duration query is always handled; it gets the cached duration when there is one, and is unchanged otherwise |
| Production.QueryAfterProduction | src/python/gstblendersrc.py:235-241 | after a produced frame, a time-format duration query is handled and answered with the frame count times the buffer duration, at whole-nanosecond frame periods (always so at the fixed 1/1) |
| Production.CursorNeverBelowStart | src/python/gstblendersrc.py:106-276 | a fresh element has its cursor on the start frame, and no property set, `do_create` call or accepted seek moves it below; so the `index < start_frame` test in `do_create` never fires |
| BlenderSrc.GstBlenderSrc.constructor | src/python/gstblendersrc.py:106-122 | the new object's fields are the initial element |
| BlenderSrc.GstBlenderSrc.GetProperty | src/python/gstblendersrc.py:124-140 | returns what `GetOf` gives for the current fields |
| BlenderSrc.GstBlenderSrc.SetProperty | src/python/gstblendersrc.py:142-169 | the new fields and the outcome are those of `SetStep`; nothing else changes |
| BlenderSrc.GstBlenderSrc.UpdateFrame | src/python/gstblendersrc.py:186-188 | the render path becomes the frame's output path; nothing else changes |
| BlenderSrc.GstBlenderSrc.RenderFrame | src/python/gstblendersrc.py:190-192 | the files become the renderer's output; the directories are unchanged |
| BlenderSrc.GstBlenderSrc.ReadFrame | src/python/gstblendersrc.py:201-209 | returns the file's bytes, or none when there is no file; removes the file exactly when `delete` is set and the file was there |
| BlenderSrc.GstBlenderSrc.Create | src/python/gstblendersrc.py:247-276 | the result, the buffer, the new fields and the new files are those of `CreateStep` |
| BlenderSrc.GstBlenderSrc.IsSeekable | src/python/gstblendersrc.py:212-215 | seekable exactly when a duration is cached |
| BlenderSrc.GstBlenderSrc.DoSeek | src/python/gstblendersrc.py:218-226 | the result, the new fields and the new segment are those of `SeekStep` |
| BlenderSrc.GstBlenderSrc.Query | src/python/gstblendersrc.py:233-244 | the reply is that of `QueryStep` |
| Legacy.LegacyInitial | python/gstblendersrc.py:103-116 | a fresh older element is valid, keeps rendered files, and has its cursor at the start frame |
| Legacy.LegacyCreateStep | python/gstblendersrc.py:190-209 | only the cursor changes among the properties; ERROR exactly when invalid; data exactly on OK; the cursor grows by one exactly on OK; no file is ever removed |
| Legacy.LegacyCreateOutcomes | python/gstblendersrc.py:190-209 | invalid gives ERROR and out of range gives EOS, both changing nothing; otherwise the frame is rendered to its output path; a present file gives OK with its bytes and the cursor plus one; a missing file gives EOS with the cursor unchanged |
| Legacy.VersionsAgree | python/gstblendersrc.py:190-209 | from the same fields the two versions return the same result, cursor, render path and bytes; their files differ only by the removal of the produced file when `delete` is set |
| Legacy.GstBlenderSrc.constructor | python/gstblendersrc.py:103-116 | the new object's fields are the initial older element |
| Legacy.GstBlenderSrc.GetProperty | python/gstblendersrc.py:118-132 | returns what `GetOf` gives for the current fields |
| Legacy.GstBlenderSrc.SetProperty | python/gstblendersrc.py:134-159 | the new fields and the outcome are those of `SetStep`, the setter shared with the current element; nothing else changes. So the lemmas about `SetStep` (frame setters and the cursor, the location checks, the `detele` setter) hold for the older element too |
| Legacy.GstBlenderSrc.UpdateFrame | python/gstblendersrc.py:166-171 | the render path becomes `output_location` joined with the prefix, the `%09d` frame number and `.png` |
| Legacy.GstBlenderSrc.RenderFrame | python/gstblendersrc.py:173-175 | the files become the renderer's output; the directories are unchanged |
| Legacy.GstBlenderSrc.ReadFrame | python/gstblendersrc.py:180-187 | returns the file's bytes exactly when the file exists, and modifies nothing, so the file is never removed |
| Legacy.GstBlenderSrc.Create | python/gstblendersrc.py:190-209 | the result, the data, the new fields and the new files are those of `LegacyCreateStep` |

## Left out

- The Blender calls are not modelled: `open_mainfile`, `frame_set`, `render.render`, the `render_post` handler and its print. The render is the parameter `rendered`, and opening the scene is recorded only as `Props.scene`.
- `BlenderSrc.GstBlenderSrc.Create` and `Legacy.GstBlenderSrc.Create` require a scene to be open only for a call that gets past the validity and range checks. Such a call without a scene fails in the source with an `AttributeError` when it reaches `update_frame`, and that path is not modelled. An out-of-range call never touches the scene and is modelled with or without one.
- GObject and GStreamer registration is not modelled: property specs, pad templates, `do_get_caps` (always ANY) and the wrapping of bytes into a `Gst.Buffer` beyond its four numeric fields.
- The reference-count adjustments in `do_query` are not modelled. A query that is not a time duration query is only marked as delegated, because `BaseSrc.do_query` is not part of this model.
- Timing.FrameDuration: the per-buffer duration uses Python true division (a float) in the source. It is modelled as integer division rounded down, with a positive numerator and denominator.
- Timing.SeekIndex: the seek index also uses true division in the source, which can make `index` a float. It is modelled as integer division rounded down.
- Timing.CalculateDuration: `Gst.util_uint64_scale` is modelled as an exact product divided and rounded down. Its 64-bit range is not modelled, and neither is any other 64-bit or `G_MAXINT` bound; frame numbers and times are unbounded naturals.
- The frame rate is the fixed constant 1/1, because the `framerate` property is commented out in the source.
- Real file-system behaviour is not modelled: `os.path.isfile`, `isdir`, `open` and `remove` become membership in, reads of and removal from the `Disk.FileSystem` map and set. Symbolic links, permissions and I/O errors are not modelled.
- Naming.JoinPath joins two components only. `os.path.join` also handles more components; those are never passed here.
- The older file's `count_frames` reads Blender's render settings and is never called, so it is not modelled. Neither are its hard-coded paths or the module-level `Gst.init`/`sys.argv` setup.
- Logging is not modelled.
- The renderer's output path starts as the empty string; in the source it is whatever the opened scene had.
