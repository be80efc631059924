/**
 * The buffer-production state machine of the current `blendersrc` element,
 * as functions over a snapshot of its fields: `do_create`, `do_do_seek`,
 * `do_is_seekable` and the duration branch of `do_query`. The class in
 * module BlenderSrc performs these steps in place and is proved to agree
 * with them.
 */
module Production {
  import opened Common
  import opened Naming
  import opened Timing
  import opened Properties

  /** `Gst.FlowReturn` values `do_create` returns. */
  datatype FlowReturn = FlowOk | FlowEos | FlowError

  /** A `Gst.Buffer`: the file's bytes and the four numeric fields `do_create` fills in. */
  datatype Buffer = Buffer(data: Bytes, pts: nat, duration: nat, offset: nat, offsetEnd: nat)

  /**
   * Every field of the element: the properties, the frame rate (fixed),
   * the cached stream duration and the renderer's output path setting.
   */
  datatype Element = Element(props: Props, framerate: Fraction, duration: Option<nat>, renderPath: string)

  /** What one `do_create` call returns and leaves behind. */
  datatype Step = Step(flow: FlowReturn, buffer: Option<Buffer>, after: Element, files: Files)

  /** The element as `__init__` leaves it; the renderer's path is empty until a frame is rendered. */
  function Initial(): (e: Element)
    ensures e.props.isValid && e.duration == None && e.framerate == DefaultFramerate && e.props.delete
  {
    Element(InitialProps(true), DefaultFramerate, None, "")
  }

  /** The cursor lies in the configured frame range. */
  predicate InRange(p: Props) {
    p.startFrame <= p.index <= p.endFrame
  }

  /**
   * A valid element whose cursor is in range has a scene open: `do_create`
   * uses the scene only once past the validity and range checks.
   */
  predicate SceneReady(p: Props) {
    p.isValid && InRange(p) ==> p.scene.Some?
  }

  /** The files after the renderer ran: it may or may not have written `path`. */
  function Render(files: Files, path: string, rendered: Option<Bytes>): (r: Files)
    ensures rendered.Some? ==> path in r && r[path] == rendered.value
    ensures rendered.None? ==> r == files
    ensures r - {path} == files - {path}
  {
    if rendered.Some? then files[path := rendered.value] else files
  }

  /** `read_frame`: the file's bytes, if the file exists, and the files after the optional removal. */
  function ReadFrame(files: Files, path: string, delete: bool): (r: (Option<Bytes>, Files))
    ensures r.0.Some? <==> path in files
    ensures r.0.Some? ==> r.0.value == files[path]
    ensures r.1.Keys == if delete then files.Keys - {path} else files.Keys
    ensures forall k :: k in r.1 ==> r.1[k] == files[k]
  {
    if path !in files then (None, files)
    else (Some(files[path]), if delete then files - {path} else files)
  }

  /** The buffer for the frame under the cursor, timed from the start frame. */
  function MakeBuffer(data: Bytes, p: Props, fr: Fraction): (b: Buffer)
    requires p.startFrame <= p.index
    ensures b.data == data
    ensures p.startFrame + b.offset == p.index && b.offsetEnd == b.offset + 1
    ensures b.pts == b.offset * b.duration
    ensures b.duration * fr.num <= Second * fr.denom < (b.duration + 1) * fr.num
  {
    var offset := p.index - p.startFrame;
    Buffer(data, Pts(offset, fr), FrameDuration(fr), offset, offset + 1)
  }

  /** `do_create`, with `rendered` standing for what the renderer wrote to the output path, if anything. */
  function CreateStep(e: Element, files: Files, rendered: Option<Bytes>): (r: Step)
    requires SceneReady(e.props)
    ensures r.after.props == e.props.(index := r.after.props.index)
    ensures r.after.framerate == e.framerate
    ensures r.flow == FlowError <==> !e.props.isValid
    ensures r.flow == FlowOk <==> r.buffer.Some?
    ensures r.after.props.index == if r.flow == FlowOk then e.props.index + 1 else e.props.index
    ensures r.flow == FlowOk ==> r.after.duration.Some?
  {
    var p := e.props;
    if !p.isValid then Step(FlowError, None, e, files)
    else if p.index > p.endFrame || p.index < p.startFrame then Step(FlowEos, None, e, files)
    else
      var e1 := e.(duration := Some(CalculateDuration(p.startFrame, p.endFrame, e.framerate)),
                   renderPath := OutputPath(p.outputLocation, p.prefix, p.index));
      var files1 := Render(files, e1.renderPath, rendered);
      var (data, files2) := ReadFrame(files1, e1.renderPath, p.delete);
      if data.None? then Step(FlowEos, None, e1, files2)
      else Step(FlowOk, Some(MakeBuffer(data.value, p, e.framerate)), e1.(props := p.(index := p.index + 1)), files2)
  }

  /** `do_create` called once per entry of `renders`, each time with that render's outcome. */
  function Run(e: Element, files: Files, renders: seq<Option<Bytes>>): (out: seq<Step>)
    requires SceneReady(e.props)
    ensures |out| == |renders|
    decreases |renders|
  {
    if renders == [] then []
    else
      var r := CreateStep(e, files, renders[0]);
      [r] + Run(r.after, r.files, renders[1..])
  }

  /** `do_is_seekable`. */
  predicate IsSeekable(e: Element) {
    e.duration.Some?
  }

  /** The fields of a `Gst.Segment` that `do_do_seek` reads or writes. */
  datatype Segment = Segment(rate: real, start: nat, position: nat, time: nat)

  datatype SeekResult = SeekResult(ok: bool, after: Element, segment: Segment)

  /** `do_do_seek`: reverse playback is refused; otherwise the cursor jumps to the frame at the position. */
  function SeekStep(e: Element, seg: Segment): (r: SeekResult)
    ensures r.ok <==> seg.rate >= 0.0
    ensures r.after.props == e.props.(index := r.after.props.index)
    ensures r.after == e.(props := r.after.props)
    ensures !r.ok ==> r.after == e && r.segment == seg
    ensures r.ok ==> r.segment == seg.(time := seg.start)
    ensures r.ok ==> r.after.props.index >= e.props.startFrame
  {
    if seg.rate < 0.0 then SeekResult(false, e, seg)
    else
      var index := SeekIndex(e.props.startFrame, seg.position, e.framerate);
      SeekResult(true, e.(props := e.props.(index := index)), seg.(time := seg.start))
  }

  /** `Gst.Format` values a duration query can ask in. */
  datatype Format = FormatUndefined | FormatDefault | FormatBytes | FormatTime | FormatBuffers | FormatPercent

  /** A query: a duration query carries its format and the duration filled in so far. */
  datatype Query = DurationQuery(format: Format, duration: Option<nat>) | OtherQuery

  /** The element answered the query itself, or passed it on to `BaseSrc.do_query`. */
  datatype QueryReply = Answered(handled: bool, query: Query) | Delegated(query: Query)

  /** `do_query`. What the base class does with a delegated query is not part of this model. */
  function QueryStep(e: Element, q: Query): (r: QueryReply)
    ensures r.Answered? <==> q.DurationQuery? && q.format == FormatTime
    ensures r.Delegated? ==> r.query == q
  {
    if q.DurationQuery? && q.format == FormatTime then
      if e.duration.Some? then Answered(true, q.(duration := e.duration))
      else Answered(true, q)
    else Delegated(q)
  }

  // ---------------------------------------------------------------------------
  // Lemmas about one call of do_create

  /** An invalid element fails every call and changes nothing. */
  lemma InvalidIsTerminal(e: Element, files: Files, rendered: Option<Bytes>)
    requires !e.props.isValid
    ensures CreateStep(e, files, rendered) == Step(FlowError, None, e, files)
  {
  }

  /** A cursor outside the frame range ends the stream and changes nothing, the cached duration included. */
  lemma OutOfRangeIsEos(e: Element, files: Files, rendered: Option<Bytes>)
    requires e.props.isValid && !InRange(e.props)
    ensures CreateStep(e, files, rendered) == Step(FlowEos, None, e, files)
  {
  }

  /** A range whose end precedes its start ends the stream on the first call. */
  lemma EmptyRangeIsImmediateEos(e: Element, files: Files, rendered: Option<Bytes>)
    requires e.props.isValid
    requires e.props.index == e.props.startFrame > e.props.endFrame
    ensures CreateStep(e, files, rendered).flow == FlowEos
  {
  }

  /**
   * A fresh element with no scene, given a start frame past its end frame,
   * ends the stream on its first call without ever touching the scene.
   */
  lemma SceneLessEmptyRangeIsEos(files: Files, dirs: set<string>, rendered: Option<Bytes>)
    ensures var p := SetStep(Initial().props, "start-frame", Int(DefaultEndFrame + 5), files, dirs).0;
      var e := Initial().(props := p);
      && p.scene == None && p.isValid && SceneReady(p)
      && CreateStep(e, files, rendered) == Step(FlowEos, None, e, files)
  {
  }

  /**
   * A produced buffer holds the file's bytes and is timed by the cursor's
   * distance from the start frame; the cursor moves on by one and the cached
   * duration covers the configured range.
   */
  lemma ProducedBuffer(e: Element, files: Files, rendered: Option<Bytes>)
    requires SceneReady(e.props)
    requires CreateStep(e, files, rendered).flow == FlowOk
    ensures var p := e.props; var r := CreateStep(e, files, rendered);
      var path := OutputPath(p.outputLocation, p.prefix, p.index);
      && p.isValid && InRange(p)
      && path in Render(files, path, rendered)
      && r.buffer.value.data == Render(files, path, rendered)[path]
      && r.buffer.value.offset == p.index - p.startFrame
      && r.buffer.value.offsetEnd == r.buffer.value.offset + 1
      && r.buffer.value.duration == FrameDuration(e.framerate)
      && r.buffer.value.pts == Pts(r.buffer.value.offset, e.framerate)
      && r.after.props.index == p.index + 1
      && r.after.duration == Some(CalculateDuration(p.startFrame, p.endFrame, e.framerate))
      && r.after.renderPath == path
  {
  }

  /**
   * When the renderer writes the frame, the call produces exactly those bytes,
   * timed by the cursor's distance from the start frame, and moves the cursor on.
   */
  lemma RenderedFrameIsProduced(e: Element, files: Files, data: Bytes)
    requires SceneReady(e.props) && e.props.isValid && InRange(e.props)
    ensures var r := CreateStep(e, files, Some(data)); var offset := e.props.index - e.props.startFrame;
      && r.flow == FlowOk
      && r.buffer == Some(Buffer(data, Pts(offset, e.framerate), FrameDuration(e.framerate), offset, offset + 1))
      && r.after.props == e.props.(index := e.props.index + 1)
      && r.after.framerate == e.framerate
  {
    var p := e.props;
    var path := OutputPath(p.outputLocation, p.prefix, p.index);
    var files1 := Render(files, path, Some(data));
    assert path in files1 && files1[path] == data;
    var read := ReadFrame(files1, path, p.delete);
    assert read.0 == Some(data);
    var r := CreateStep(e, files, Some(data));
    assert r == Step(FlowOk, Some(MakeBuffer(data, p, e.framerate)),
                     e.(duration := Some(CalculateDuration(p.startFrame, p.endFrame, e.framerate)),
                        renderPath := path, props := p.(index := p.index + 1)), read.1);
  }

  /**
   * When no file is at the output path after rendering, the stream ends with
   * the cursor where it was; the duration has been cached all the same, so
   * the element now reports itself seekable.
   */
  lemma MissingFrameIsEos(e: Element, files: Files)
    requires SceneReady(e.props) && e.props.isValid && InRange(e.props)
    requires OutputPath(e.props.outputLocation, e.props.prefix, e.props.index) !in files
    ensures var r := CreateStep(e, files, None);
      && r.flow == FlowEos && r.after.props == e.props && r.files == files
      && IsSeekable(r.after)
  {
  }

  /**
   * After a produced frame the rendered file is gone when `delete` is set and
   * kept otherwise; no other file is touched.
   */
  lemma RenderedFileCleanup(e: Element, files: Files, rendered: Option<Bytes>)
    requires SceneReady(e.props)
    requires CreateStep(e, files, rendered).flow == FlowOk
    ensures var r := CreateStep(e, files, rendered); var path := r.after.renderPath;
      && (e.props.delete ==> path !in r.files)
      && (!e.props.delete ==> path in r.files && r.files[path] == r.buffer.value.data)
      && r.files - {path} == files - {path}
  {
    var r := CreateStep(e, files, rendered);
    var path := r.after.renderPath;
    var files1 := Render(files, path, rendered);
    assert files1 - {path} == files - {path} by {
      if rendered.Some? {
        UpdateThenRemove(files, path, rendered.value);
      }
    }
    assert r.files == ReadFrame(files1, path, e.props.delete).1;
    if e.props.delete {
      assert r.files == files1 - {path};
      RemoveTwice(files1, path);
    }
  }

  lemma UpdateThenRemove(m: Files, k: string, v: Bytes)
    ensures m[k := v] - {k} == m - {k}
  {
  }

  lemma RemoveTwice(m: Files, k: string)
    ensures (m - {k}) - {k} == m - {k}
  {
  }

  /** After a produced frame the cached duration is the frame count times the buffer duration (exactly, at whole-nanosecond frame durations). */
  lemma DurationAfterProduction(e: Element, files: Files, rendered: Option<Bytes>)
    requires SceneReady(e.props) && ExactFrameDuration(e.framerate)
    requires CreateStep(e, files, rendered).flow == FlowOk
    ensures CreateStep(e, files, rendered).after.duration
         == Some(CountFrames(e.props.startFrame, e.props.endFrame) * FrameDuration(e.framerate))
  {
    DurationCoversFrames(e.props.startFrame, e.props.endFrame, e.framerate);
  }

  // ---------------------------------------------------------------------------
  // Lemmas about sequences of calls

  /** Once invalid, every later call fails and nothing changes. */
  lemma {:induction false} InvalidRunIsAllErrors(e: Element, files: Files, renders: seq<Option<Bytes>>)
    requires !e.props.isValid
    ensures forall k :: 0 <= k < |renders| ==> Run(e, files, renders)[k] == Step(FlowError, None, e, files)
    decreases |renders|
  {
    if renders != [] {
      InvalidRunIsAllErrors(e, files, renders[1..]);
    }
  }

  /**
   * From a cursor in `[start, end + 1]`, with every render succeeding, each
   * call up to the end frame produces the rendered bytes with consecutive
   * offsets and timestamps, and the call after that ends the stream.
   */
  lemma RunProducesEveryFrame(e: Element, files: Files, renders: seq<Option<Bytes>>)
    requires SceneReady(e.props) && e.props.isValid
    requires e.props.startFrame <= e.props.index <= e.props.endFrame + 1
    requires |renders| == e.props.endFrame + 2 - e.props.index
    requires forall k :: 0 <= k < |renders| - 1 ==> renders[k].Some?
    ensures var out := Run(e, files, renders); var base := e.props.index - e.props.startFrame;
      && (forall k :: 0 <= k < |renders| - 1 ==> IsFrame(out[k], renders[k].value, base + k, e.framerate))
      && out[|renders| - 1].flow == FlowEos
      && out[|renders| - 1].after.props == e.props.(index := e.props.endFrame + 1)
  {
    forall k | 0 <= k < |renders| - 1
      ensures IsFrame(Run(e, files, renders)[k], renders[k].value, e.props.index - e.props.startFrame + k, e.framerate)
    {
      RunFrameAt(e, files, renders, k);
    }
    RunEnd(e, files, renders);
  }

  /** Call `k` of such a run, for `k` before the call past the end frame. */
  lemma {:induction false} RunFrameAt(e: Element, files: Files, renders: seq<Option<Bytes>>, k: nat)
    requires SceneReady(e.props) && e.props.isValid
    requires e.props.startFrame <= e.props.index
    requires k < |renders| && e.props.index + k <= e.props.endFrame
    requires forall j :: 0 <= j <= k ==> renders[j].Some?
    ensures IsFrame(Run(e, files, renders)[k], renders[k].value, e.props.index - e.props.startFrame + k, e.framerate)
    decreases k
  {
    var r := CreateStep(e, files, renders[0]);
    RenderedFrameIsProduced(e, files, renders[0].value);
    RunTail(e, files, renders, k);
    if k > 0 {
      assert r.after.props == e.props.(index := e.props.index + 1) && e.props.scene.Some?;
      var tail := renders[1..];
      assert forall j :: 0 <= j <= k - 1 ==> tail[j] == renders[j + 1];
      RunFrameAt(r.after, r.files, tail, k - 1);
    }
  }

  lemma {:induction false} RunEnd(e: Element, files: Files, renders: seq<Option<Bytes>>)
    requires SceneReady(e.props) && e.props.isValid
    requires e.props.startFrame <= e.props.index <= e.props.endFrame + 1
    requires |renders| == e.props.endFrame + 2 - e.props.index
    requires forall k :: 0 <= k < |renders| - 1 ==> renders[k].Some?
    ensures var out := Run(e, files, renders);
      out[|renders| - 1].flow == FlowEos && out[|renders| - 1].after.props == e.props.(index := e.props.endFrame + 1)
    decreases |renders|
  {
    RunTail(e, files, renders, |renders| - 1);
    if |renders| == 1 {
      OutOfRangeIsEos(e, files, renders[0]);
    } else {
      var r := CreateStep(e, files, renders[0]);
      RenderedFrameIsProduced(e, files, renders[0].value);
      assert r.after.props == e.props.(index := e.props.index + 1) && e.props.scene.Some?;
      var tail := renders[1..];
      assert forall k :: 0 <= k < |tail| - 1 ==> tail[k].Some?;
      RunEnd(r.after, r.files, tail);
    }
  }

  /** A produced buffer: the bytes, timed `offset` frames after the start frame. */
  predicate IsFrame(s: Step, data: Bytes, offset: nat, fr: Fraction) {
    s.flow == FlowOk && s.buffer == Some(Buffer(data, Pts(offset, fr), FrameDuration(fr), offset, offset + 1))
  }

  /** Call 0 of a run is the first call; call `k > 0` is call `k - 1` of the run started after it. */
  lemma RunTail(e: Element, files: Files, renders: seq<Option<Bytes>>, k: nat)
    requires SceneReady(e.props) && k < |renders|
    ensures var r := CreateStep(e, files, renders[0]);
      Run(e, files, renders)[k] == if k == 0 then r else Run(r.after, r.files, renders[1..])[k - 1]
  {
  }

  /**
   * From the start frame of a range `[s, e]` with `s <= e` and every render
   * succeeding: exactly `e - s + 1` buffers with offsets `0, 1, ...` spaced
   * one frame duration apart, then end of stream.
   */
  lemma StreamFromStartFrame(e: Element, files: Files, renders: seq<Option<Bytes>>)
    requires SceneReady(e.props) && e.props.isValid
    requires e.props.index == e.props.startFrame <= e.props.endFrame
    requires |renders| == CountFrames(e.props.startFrame, e.props.endFrame) + 1
    requires forall k :: 0 <= k < |renders| - 1 ==> renders[k].Some?
    ensures var out := Run(e, files, renders); var n := CountFrames(e.props.startFrame, e.props.endFrame);
      && (forall k :: 0 <= k < n ==> out[k].flow == FlowOk && out[k].buffer.Some? && out[k].buffer.value.offset == k
                                      && out[k].buffer.value.pts == k * FrameDuration(e.framerate))
      && (forall k :: 0 <= k < n - 1 ==> out[k + 1].buffer.value.pts - out[k].buffer.value.pts == FrameDuration(e.framerate))
      && out[n].flow == FlowEos
  {
    RunProducesEveryFrame(e, files, renders);
    var out := Run(e, files, renders);
    var n := CountFrames(e.props.startFrame, e.props.endFrame);
    forall k | 0 <= k < n
      ensures out[k].flow == FlowOk && out[k].buffer.Some? && out[k].buffer.value.offset == k
      ensures out[k].buffer.value.pts == k * FrameDuration(e.framerate)
    {
      assert IsFrame(out[k], renders[k].value, k, e.framerate);
    }
    forall k | 0 <= k < n - 1
      ensures out[k + 1].buffer.value.pts - out[k].buffer.value.pts == FrameDuration(e.framerate)
    {
      PtsSpacing(k, e.framerate);
    }
  }

  // ---------------------------------------------------------------------------
  // Lemmas about seeking and queries

  /**
   * After a produced frame a time-format duration query is answered with the
   * frame count times the buffer duration, at whole-nanosecond frame periods.
   */
  lemma QueryAfterProduction(e: Element, files: Files, rendered: Option<Bytes>, q: Query)
    requires SceneReady(e.props) && ExactFrameDuration(e.framerate)
    requires CreateStep(e, files, rendered).flow == FlowOk
    requires q.DurationQuery? && q.format == FormatTime
    ensures QueryStep(CreateStep(e, files, rendered).after, q)
         == Answered(true, q.(duration := Some(CountFrames(e.props.startFrame, e.props.endFrame) * FrameDuration(e.framerate))))
  {
    DurationAfterProduction(e, files, rendered);
  }

  /** The element is not seekable until a call has got past the range check; from then on it stays seekable. */
  lemma SeekableOnceRendered(e: Element, files: Files, rendered: Option<Bytes>)
    requires SceneReady(e.props)
    ensures !IsSeekable(Initial())
    ensures e.props.isValid && InRange(e.props) ==> IsSeekable(CreateStep(e, files, rendered).after)
    ensures IsSeekable(e) ==> IsSeekable(CreateStep(e, files, rendered).after)
  {
  }

  /**
   * Seeking to the timestamp of a buffer just produced moves the cursor back
   * to that buffer's frame, so the next call renders it again.
   */
  lemma SeekToProducedBuffer(e: Element, files: Files, rendered: Option<Bytes>, seg: Segment)
    requires SceneReady(e.props) && ExactFrameDuration(e.framerate)
    requires CreateStep(e, files, rendered).flow == FlowOk
    requires seg.rate >= 0.0 && seg.position == CreateStep(e, files, rendered).buffer.value.pts
    ensures var r := SeekStep(CreateStep(e, files, rendered).after, seg);
      r.ok && r.after.props.index == e.props.index && r.segment.time == seg.start
  {
    var r := CreateStep(e, files, rendered);
    ProducedBuffer(e, files, rendered);
    var offset := e.props.index - e.props.startFrame;
    assert seg.position == Pts(offset, e.framerate);
    SeekInvertsPts(e.props.startFrame, offset, e.framerate);
    assert r.after.props.startFrame == e.props.startFrame && r.after.framerate == e.framerate;
  }

  /**
   * An accepted seek puts the cursor on the frame whose time slot, counted
   * from the start frame, holds the segment's position.
   */
  lemma SeekLandsOnFrame(e: Element, seg: Segment)
    requires seg.rate >= 0.0
    ensures var r := SeekStep(e, seg); var k := r.after.props.index - e.props.startFrame; var fr := e.framerate;
      && r.ok
      && k * (fr.denom * Second) <= seg.position * fr.num < (k + 1) * (fr.denom * Second)
  {
    SeekLandsInSlot(e.props.startFrame, seg.position, e.framerate);
  }

  /** A seek with a negative rate fails and leaves the element and the segment alone. */
  lemma ReverseSeekIsRefused(e: Element, seg: Segment)
    requires seg.rate < 0.0
    ensures SeekStep(e, seg) == SeekResult(false, e, seg)
  {
  }

  /**
   * A time-format duration query is always reported handled; it gets a
   * duration exactly when one is cached, and that duration is the cached one.
   */
  lemma DurationQueryAnswer(e: Element, q: Query)
    requires q.DurationQuery? && q.format == FormatTime
    ensures var r := QueryStep(e, q);
      && r.Answered? && r.handled
      && (r.query.duration != q.duration ==> IsSeekable(e))
      && (IsSeekable(e) ==> r.query == q.(duration := e.duration))
      && (!IsSeekable(e) ==> r.query == q)
  {
  }

  // ---------------------------------------------------------------------------
  // The cursor never falls below the start frame

  /**
   * `__init__` puts the cursor on the start frame, and neither a property set,
   * a `do_create` call nor an accepted seek moves it below the start frame.
   * So the test `index < start_frame` in `do_create` never fires.
   */
  lemma CursorNeverBelowStart(e: Element, files: Files, rendered: Option<Bytes>, name: string, v: Value,
                              dirs: set<string>, seg: Segment)
    ensures Initial().props.startFrame <= Initial().props.index
    ensures e.props.startFrame <= e.props.index && WellTyped(name, v) ==>
      var p := SetStep(e.props, name, v, files, dirs).0; p.startFrame <= p.index
    ensures e.props.startFrame <= e.props.index && SceneReady(e.props) ==>
      var p := CreateStep(e, files, rendered).after.props; p.startFrame <= p.index
    ensures var p := SeekStep(e, seg).after.props; e.props.startFrame <= e.props.index ==> p.startFrame <= p.index
  {
  }
}
