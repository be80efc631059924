/**
 * The current `blendersrc` element as an object whose methods update its
 * fields in place, the way the GStreamer base class drives it. Every method
 * is proved to have exactly the effect of the matching step function of
 * modules Properties and Production on the snapshot `State()`.
 */
module BlenderSrc {
  import opened Common
  import opened Naming
  import opened Timing
  import opened Properties
  import opened Production
  import opened Disk

  /** The fields of a `Gst.Segment` that a seek reads or writes; the base class owns it. */
  class GstSegment {
    var rate: real
    var start: nat
    var position: nat
    var time: nat

    ghost function Value(): Segment
      reads this
    {
      Segment(rate, start, position, time)
    }

    constructor (rate: real, start: nat, position: nat, time: nat)
      ensures Value() == Segment(rate, start, position, time)
    {
      this.rate, this.start, this.position, this.time := rate, start, position, time;
    }
  }

  class GstBlenderSrc {
    var location: string
    var startFrame: nat
    var endFrame: nat
    var outputLocation: string
    var prefix: string
    var delete: bool
    var detele: Option<bool>
    const framerate: Fraction
    var index: nat
    var isValid: bool
    var duration: Option<nat>
    var scene: Option<string>
    var renderPath: string

    /** Every field, as one value. */
    ghost function State(): Element
      reads this
    {
      Element(Props(location, startFrame, endFrame, outputLocation, prefix, delete, detele, index, isValid, scene),
              framerate, duration, renderPath)
    }

    /** `__init__`. */
    constructor ()
      ensures State() == Initial()
    {
      location := DefaultLocation;
      startFrame := DefaultStartFrame;
      endFrame := DefaultEndFrame;
      outputLocation := DefaultOutputLocation;
      prefix := DefaultPrefix;
      delete := true;
      detele := None;
      framerate := DefaultFramerate;
      index := 1;
      isValid := true;
      duration := None;
      scene := None;
      renderPath := "";
    }

    /** `do_get_property`. */
    method GetProperty(name: string) returns (r: Result<Value, PropertyError>)
      ensures r == GetOf(State().props, name)
    {
      if name == "location" {
        r := Ok(Str(location));
      } else if name == "start-frame" {
        r := Ok(Int(startFrame));
      } else if name == "end-frame" {
        r := Ok(Int(endFrame));
      } else if name == "output-location" {
        r := Ok(Str(outputLocation));
      } else if name == "prefix" {
        r := Ok(Str(prefix));
      } else if name == "delete" {
        r := Ok(Bool(delete));
      } else {
        r := Err(UnknownProperty(name));
      }
    }

    /** `do_set_property`; opening the scene in the renderer is recorded as `scene`. */
    method SetProperty(name: string, v: Value, fs: FileSystem) returns (out: Outcome)
      requires WellTyped(name, v)
      modifies this
      ensures var r := SetStep(old(State()).props, name, v, fs.files, fs.dirs);
        State() == old(State()).(props := r.0) && out == r.1
    {
      if name == "location" {
        location := v.s;
        if location !in fs.files {
          isValid := false;
          return Raised(InvalidLocation(location));
        }
        scene := Some(location);
        out := Done;
      } else if name == "start-frame" {
        startFrame := v.n;
        index := v.n;
        out := Done;
      } else if name == "end-frame" {
        endFrame := v.n;
        out := Done;
      } else if name == "output-location" {
        if isValid && v.s !in fs.dirs {
          isValid := false;
          return Raised(InvalidOutputLocation(v.s));
        }
        outputLocation := v.s;
        out := Done;
      } else if name == "prefix" {
        prefix := v.s;
        out := Done;
      } else if name == "delete" {
        detele := Some(v.b);
        out := Done;
      } else {
        out := Raised(UnknownProperty(name));
      }
    }

    /** `update_frame`: points the renderer at the current frame's output path. */
    method UpdateFrame()
      modifies this
      ensures State() == old(State()).(renderPath := OutputPath(outputLocation, prefix, index))
    {
      renderPath := OutputPath(outputLocation, prefix, index);
    }

    /** `render_frame`: the renderer writes `rendered` to the output path, or writes nothing. */
    method RenderFrame(fs: FileSystem, rendered: Option<Bytes>)
      modifies fs
      ensures fs.files == Render(old(fs.files), renderPath, rendered) && fs.dirs == old(fs.dirs)
    {
      if rendered.Some? {
        fs.Write(renderPath, rendered.value);
      }
    }

    /** `read_frame`: the rendered file's bytes, removing the file when `delete` is set. */
    method ReadFrame(fs: FileSystem) returns (data: Option<Bytes>)
      modifies fs
      ensures (data, fs.files) == Production.ReadFrame(old(fs.files), renderPath, delete)
      ensures fs.dirs == old(fs.dirs)
    {
      var path := renderPath;
      if path !in fs.files {
        return None;
      }
      data := Some(fs.files[path]);
      if delete {
        fs.Remove(path);
      }
    }

    /** `do_create`, with `rendered` standing for what the renderer writes. */
    method Create(fs: FileSystem, rendered: Option<Bytes>) returns (flow: FlowReturn, buffer: Option<Buffer>)
      requires SceneReady(State().props)
      modifies this, fs
      ensures var r := CreateStep(old(State()), old(fs.files), rendered);
        flow == r.flow && buffer == r.buffer && State() == r.after && fs.files == r.files
      ensures fs.dirs == old(fs.dirs)
    {
      ghost var e, files := State(), fs.files;
      if !isValid {
        return FlowError, None;
      }
      if index > endFrame || index < startFrame {
        return FlowEos, None;
      }
      assert e.props.isValid && InRange(e.props);
      duration := Some(CalculateDuration(startFrame, endFrame, framerate));
      UpdateFrame();
      ghost var e1 := State();
      assert e1 == e.(duration := duration, renderPath := OutputPath(outputLocation, prefix, index));
      RenderFrame(fs, rendered);
      var data := ReadFrame(fs);
      assert (data, fs.files) == Production.ReadFrame(Render(files, e1.renderPath, rendered), e1.renderPath, e.props.delete);
      if data.None? {
        return FlowEos, None;
      }
      var frameDuration := FrameDuration(framerate);
      var offset := index - startFrame;
      assert offset * frameDuration == Pts(offset, framerate);
      buffer := Some(Buffer(data.value, offset * frameDuration, frameDuration, offset, offset + 1));
      assert buffer == Some(MakeBuffer(data.value, e.props, framerate));
      index := index + 1;
      flow := FlowOk;
      assert State() == e1.(props := e.props.(index := e.props.index + 1));
    }

    /** `do_is_seekable`. */
    method IsSeekable() returns (seekable: bool)
      ensures seekable == Production.IsSeekable(State())
    {
      seekable := duration.Some?;
    }

    /** `do_do_seek`. */
    method DoSeek(segment: GstSegment) returns (ok: bool)
      modifies this, segment
      ensures var r := SeekStep(old(State()), old(segment.Value()));
        ok == r.ok && State() == r.after && segment.Value() == r.segment
    {
      if segment.rate < 0.0 {
        return false;
      }
      segment.time := segment.start;
      index := startFrame + segment.position * framerate.num / (framerate.denom * Second);
      ok := true;
    }

    /** `do_query`, the duration branch; any other query is handed to the base class. */
    method Query(q: Query) returns (reply: QueryReply)
      ensures reply == QueryStep(State(), q)
    {
      if q.DurationQuery? && q.format == FormatTime {
        if duration.Some? {
          return Answered(true, q.(duration := duration));
        }
        return Answered(true, q);
      }
      reply := Delegated(q);
    }
  }
}
