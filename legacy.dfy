/**
 * The older, smaller version of the element. It shares `do_set_property` and
 * `do_get_property` with the current one, but `do_create` keeps no cached
 * duration, sets no timestamps, and `read_frame` never removes the rendered
 * file.
 */
module Legacy {
  import opened Common
  import opened Naming
  import opened Properties
  import opened Production
  import opened Disk

  /** Every field of the older element: the properties and the renderer's output path. */
  datatype LegacyElement = LegacyElement(props: Props, renderPath: string)

  /** What one `do_create` call returns and leaves behind: the buffer is only the file's bytes. */
  datatype LegacyStep = LegacyStep(flow: FlowReturn, data: Option<Bytes>, after: LegacyElement, files: Files)

  /** `__init__`: as the current element, but `delete` defaults to false. */
  function LegacyInitial(): (e: LegacyElement)
    ensures e.props.isValid && !e.props.delete && e.props.index == e.props.startFrame
  {
    LegacyElement(InitialProps(false), "")
  }

  /** `do_create` of the older element, with `rendered` standing for what the renderer writes. */
  function LegacyCreateStep(e: LegacyElement, files: Files, rendered: Option<Bytes>): (r: LegacyStep)
    requires SceneReady(e.props)
    ensures r.after.props == e.props.(index := r.after.props.index)
    ensures r.flow == FlowError <==> !e.props.isValid
    ensures r.flow == FlowOk <==> r.data.Some?
    ensures r.after.props.index == if r.flow == FlowOk then e.props.index + 1 else e.props.index
    ensures files.Keys <= r.files.Keys
  {
    var p := e.props;
    if !p.isValid then LegacyStep(FlowError, None, e, files)
    else if p.index > p.endFrame || p.index < p.startFrame then LegacyStep(FlowEos, None, e, files)
    else
      var e1 := e.(renderPath := OutputPath(p.outputLocation, p.prefix, p.index));
      var files1 := Render(files, e1.renderPath, rendered);
      var (data, files2) := ReadFrame(files1, e1.renderPath, false);
      if data.None? then LegacyStep(FlowEos, None, e1, files2)
      else LegacyStep(FlowOk, data, e1.(props := p.(index := p.index + 1)), files2)
  }

  // ---------------------------------------------------------------------------
  // Lemmas

  /**
   * An invalid element fails; a cursor out of range ends the stream; both
   * change nothing. Otherwise the frame's file is rendered under the output
   * directory: if it is there it is produced and the cursor moves on by one,
   * if not the stream ends with the cursor where it was. The file is kept.
   */
  lemma LegacyCreateOutcomes(e: LegacyElement, files: Files, rendered: Option<Bytes>)
    requires SceneReady(e.props)
    ensures var r := LegacyCreateStep(e, files, rendered); var p := e.props;
      var path := OutputPath(p.outputLocation, p.prefix, p.index);
      && (!p.isValid ==> r == LegacyStep(FlowError, None, e, files))
      && (p.isValid && !InRange(p) ==> r == LegacyStep(FlowEos, None, e, files))
      && (p.isValid && InRange(p) ==>
            && r.after.renderPath == path
            && r.files == Render(files, path, rendered)
            && (path in r.files ==> r.flow == FlowOk && r.data == Some(r.files[path]) && r.after.props.index == p.index + 1)
            && (path !in r.files ==> r.flow == FlowEos && r.after.props == p))
  {
  }

  /**
   * The two versions agree on every call: same result, same cursor, same
   * render target and the same bytes. They differ only in that the current
   * one removes the produced file when `delete` is set, timestamps the buffer
   * and caches the stream duration.
   */
  lemma VersionsAgree(e: Element, le: LegacyElement, files: Files, rendered: Option<Bytes>)
    requires SceneReady(e.props) && le.props == e.props && le.renderPath == e.renderPath
    ensures var r := CreateStep(e, files, rendered); var lr := LegacyCreateStep(le, files, rendered);
      && r.flow == lr.flow
      && r.after.props == lr.after.props
      && r.after.renderPath == lr.after.renderPath
      && (r.flow == FlowOk ==> r.buffer.value.data == lr.data.value)
      && r.files == (if r.flow == FlowOk && e.props.delete then lr.files - {lr.after.renderPath} else lr.files)
  {
  }

  class GstBlenderSrc {
    var location: string
    var startFrame: nat
    var endFrame: nat
    var outputLocation: string
    var prefix: string
    var delete: bool
    var detele: Option<bool>
    var index: nat
    var isValid: bool
    var scene: Option<string>
    var renderPath: string

    /** Every field, as one value. */
    ghost function State(): LegacyElement
      reads this
    {
      LegacyElement(Props(location, startFrame, endFrame, outputLocation, prefix, delete, detele, index, isValid, scene),
                    renderPath)
    }

    /** `__init__`. */
    constructor ()
      ensures State() == LegacyInitial()
    {
      location := DefaultLocation;
      startFrame := DefaultStartFrame;
      endFrame := DefaultEndFrame;
      outputLocation := DefaultOutputLocation;
      prefix := DefaultPrefix;
      delete := false;
      detele := None;
      index := 1;
      isValid := true;
      scene := None;
      renderPath := "";
    }

    /** `do_get_property`. */
    method GetProperty(name: string) returns (r: Result<Value, PropertyError>)
      ensures r == GetOf(State().props, name)
    {
      if name == "location" {
        r := Ok(Str(location));
      } else if name == "start-frame" {
        r := Ok(Int(startFrame));
      } else if name == "end-frame" {
        r := Ok(Int(endFrame));
      } else if name == "output-location" {
        r := Ok(Str(outputLocation));
      } else if name == "prefix" {
        r := Ok(Str(prefix));
      } else if name == "delete" {
        r := Ok(Bool(delete));
      } else {
        r := Err(UnknownProperty(name));
      }
    }

    /** `do_set_property`; opening the scene in the renderer is recorded as `scene`. */
    method SetProperty(name: string, v: Value, fs: FileSystem) returns (out: Outcome)
      requires WellTyped(name, v)
      modifies this
      ensures var r := SetStep(old(State()).props, name, v, fs.files, fs.dirs);
        State() == old(State()).(props := r.0) && out == r.1
    {
      if name == "location" {
        location := v.s;
        if location !in fs.files {
          isValid := false;
          return Raised(InvalidLocation(location));
        }
        scene := Some(location);
        out := Done;
      } else if name == "start-frame" {
        startFrame := v.n;
        index := v.n;
        out := Done;
      } else if name == "end-frame" {
        endFrame := v.n;
        out := Done;
      } else if name == "output-location" {
        if isValid && v.s !in fs.dirs {
          isValid := false;
          return Raised(InvalidOutputLocation(v.s));
        }
        outputLocation := v.s;
        out := Done;
      } else if name == "prefix" {
        prefix := v.s;
        out := Done;
      } else if name == "delete" {
        detele := Some(v.b);
        out := Done;
      } else {
        out := Raised(UnknownProperty(name));
      }
    }

    /** `update_frame`: builds the frame's file name inline and points the renderer at it. */
    method UpdateFrame()
      modifies this
      ensures State() == old(State()).(renderPath := OutputPath(outputLocation, prefix, index))
    {
      var filename := prefix + FormatFrameNumber(index) + Extension;
      renderPath := JoinPath(outputLocation, filename);
    }

    /** `render_frame`: the renderer writes `rendered` to the output path, or writes nothing. */
    method RenderFrame(fs: FileSystem, rendered: Option<Bytes>)
      modifies fs
      ensures fs.files == Render(old(fs.files), renderPath, rendered) && fs.dirs == old(fs.dirs)
    {
      if rendered.Some? {
        fs.Write(renderPath, rendered.value);
      }
    }

    /** `read_frame`: the rendered file's bytes; the file is never removed. */
    method ReadFrame(fs: FileSystem) returns (data: Option<Bytes>)
      ensures (data, fs.files) == Production.ReadFrame(fs.files, renderPath, false)
      ensures data.Some? <==> renderPath in fs.files
    {
      var path := renderPath;
      if path !in fs.files {
        return None;
      }
      data := Some(fs.files[path]);
    }

    /** `do_create`, with `rendered` standing for what the renderer writes. */
    method Create(fs: FileSystem, rendered: Option<Bytes>) returns (flow: FlowReturn, data: Option<Bytes>)
      requires SceneReady(State().props)
      modifies this, fs
      ensures var r := LegacyCreateStep(old(State()), old(fs.files), rendered);
        flow == r.flow && data == r.data && State() == r.after && fs.files == r.files
      ensures fs.dirs == old(fs.dirs)
    {
      ghost var e, files := State(), fs.files;
      if !isValid {
        return FlowError, None;
      }
      if index > endFrame || index < startFrame {
        return FlowEos, None;
      }
      UpdateFrame();
      ghost var e1 := State();
      RenderFrame(fs, rendered);
      data := ReadFrame(fs);
      assert (data, fs.files) == Production.ReadFrame(Render(files, e1.renderPath, rendered), e1.renderPath, false);
      if data.None? {
        return FlowEos, None;
      }
      index := index + 1;
      flow := FlowOk;
    }
  }
}
