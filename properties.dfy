/**
 * The element's properties as `do_set_property` and `do_get_property` see
 * them. Both versions of the element have the same two methods, so the
 * record and the two step functions are shared.
 */
module Properties {
  import opened Common

  /** A property value, as GObject hands it over after checking its type. */
  datatype Value = Str(s: string) | Int(n: nat) | Bool(b: bool)

  /** The exceptions `do_set_property` and `do_get_property` raise. */
  datatype PropertyError =
    | InvalidLocation(path: string)
    | InvalidOutputLocation(path: string)
    | UnknownProperty(name: string)

  datatype Outcome = Done | Raised(error: PropertyError)

  /**
   * The fields `do_set_property` writes. `detele` is the attribute the `delete`
   * setter actually assigns (None until it is first set); `scene` is the scene
   * file opened in the renderer, if any; `index` is the frame cursor.
   */
  datatype Props = Props(
    location: string,
    startFrame: nat,
    endFrame: nat,
    outputLocation: string,
    prefix: string,
    delete: bool,
    detele: Option<bool>,
    index: nat,
    isValid: bool,
    scene: Option<string>)

  const DefaultLocation: string := ""
  const DefaultStartFrame: nat := 1
  const DefaultEndFrame: nat := 25
  const DefaultOutputLocation: string := "/tmp/"
  const DefaultPrefix: string := ""

  /** The fields as `__init__` leaves them; the two versions differ only in the default of `delete`. */
  function InitialProps(deleteDefault: bool): (p: Props)
    ensures p.isValid && p.scene == None && p.detele == None
    ensures p.index == p.startFrame <= p.endFrame
  {
    Props(DefaultLocation, DefaultStartFrame, DefaultEndFrame, DefaultOutputLocation, DefaultPrefix,
          deleteDefault, None, 1, true, None)
  }

  predicate IsKnown(name: string) {
    name == "location" || name == "start-frame" || name == "end-frame" ||
    name == "output-location" || name == "prefix" || name == "delete"
  }

  /** The type GObject guarantees for each declared property's value. */
  predicate WellTyped(name: string, v: Value) {
    && (name == "location" || name == "output-location" || name == "prefix" ==> v.Str?)
    && (name == "start-frame" || name == "end-frame" ==> v.Int?)
    && (name == "delete" ==> v.Bool?)
  }

  /** `do_get_property`: the stored value of a declared property, or `AttributeError`. */
  function GetOf(p: Props, name: string): (r: Result<Value, PropertyError>)
    ensures r.Err? <==> !IsKnown(name)
    ensures r.Err? ==> r.error == UnknownProperty(name)
    ensures r.Ok? ==> WellTyped(name, r.value)
  {
    if name == "location" then Ok(Str(p.location))
    else if name == "start-frame" then Ok(Int(p.startFrame))
    else if name == "end-frame" then Ok(Int(p.endFrame))
    else if name == "output-location" then Ok(Str(p.outputLocation))
    else if name == "prefix" then Ok(Str(p.prefix))
    else if name == "delete" then Ok(Bool(p.delete))
    else Err(UnknownProperty(name))
  }

  /**
   * `do_set_property` against regular files `files` and directories `dirs`:
   * the new fields and whether the call raised.
   */
  function SetStep(p: Props, name: string, v: Value, files: Files, dirs: set<string>): (r: (Props, Outcome))
    requires WellTyped(name, v)
    ensures r.0.isValid ==> p.isValid
    ensures r.1.Raised? && !r.1.error.UnknownProperty? ==> !r.0.isValid
    ensures r.1 == Raised(UnknownProperty(name)) <==> !IsKnown(name)
    ensures r.0.delete == p.delete
  {
    if name == "location" then
      if v.s !in files then (p.(location := v.s, isValid := false), Raised(InvalidLocation(v.s)))
      else (p.(location := v.s, scene := Some(v.s)), Done)
    else if name == "start-frame" then (p.(startFrame := v.n, index := v.n), Done)
    else if name == "end-frame" then (p.(endFrame := v.n), Done)
    else if name == "output-location" then
      if p.isValid && v.s !in dirs then (p.(isValid := false), Raised(InvalidOutputLocation(v.s)))
      else (p.(outputLocation := v.s), Done)
    else if name == "prefix" then (p.(prefix := v.s), Done)
    else if name == "delete" then (p.(detele := Some(v.b)), Done)
    else (p, Raised(UnknownProperty(name)))
  }

  // ---------------------------------------------------------------------------
  // Lemmas

  /**
   * Reading back a property returns what was set, when the set did not raise;
   * `location` is stored even when the set raises. `delete` is the exception.
   */
  lemma SetThenGet(p: Props, name: string, v: Value, files: Files, dirs: set<string>)
    requires WellTyped(name, v) && IsKnown(name) && name != "delete"
    requires SetStep(p, name, v, files, dirs).1 == Done || name == "location"
    ensures GetOf(SetStep(p, name, v, files, dirs).0, name) == Ok(v)
  {
  }

  /** Setting one property never changes what another property reads back. */
  lemma SetLeavesOtherProperties(p: Props, name: string, v: Value, files: Files, dirs: set<string>, other: string)
    requires WellTyped(name, v) && other != name
    ensures GetOf(SetStep(p, name, v, files, dirs).0, other) == GetOf(p, other)
  {
  }

  /**
   * The `delete` setter writes a differently named field, so neither the value
   * `do_get_property` returns nor the flag `read_frame` consults ever changes.
   */
  lemma DeleteSetterHasNoEffect(p: Props, b: bool, files: Files, dirs: set<string>)
    ensures var r := SetStep(p, "delete", Bool(b), files, dirs);
      r.1 == Done && GetOf(r.0, "delete") == GetOf(p, "delete") && r.0.delete == p.delete
      && r.0 == p.(detele := Some(b))
  {
  }

  /** `start-frame` moves the cursor to the new start whatever it was; `end-frame` leaves it. */
  lemma FrameSettersAndCursor(p: Props, n: nat, files: Files, dirs: set<string>)
    ensures var r := SetStep(p, "start-frame", Int(n), files, dirs);
      r.1 == Done && r.0 == p.(startFrame := n, index := n)
    ensures var r := SetStep(p, "end-frame", Int(n), files, dirs);
      r.1 == Done && r.0 == p.(endFrame := n) && r.0.index == p.index
  {
  }

  /**
   * `location` is stored whether or not the file exists; a missing file clears
   * validity and raises, an existing one is opened as the scene.
   */
  lemma LocationSetter(p: Props, path: string, files: Files, dirs: set<string>)
    ensures var r := SetStep(p, "location", Str(path), files, dirs);
      && r.0.location == path
      && (r.1 == Done <==> path in files)
      && (path in files ==> r.0 == p.(location := path, scene := Some(path)))
      && (path !in files ==> r.0 == p.(location := path, isValid := false)
                             && r.1 == Raised(InvalidLocation(path)))
  {
  }

  /**
   * While the element is valid, `output-location` must name an existing
   * directory or validity is cleared, the call raises and the old value stays;
   * once invalid, any value is stored unchecked.
   */
  lemma OutputLocationSetter(p: Props, path: string, files: Files, dirs: set<string>)
    ensures var r := SetStep(p, "output-location", Str(path), files, dirs);
      && (r.1.Raised? <==> p.isValid && path !in dirs)
      && (r.1.Raised? ==> r.0 == p.(isValid := false) && r.0.outputLocation == p.outputLocation)
      && (r.1 == Done ==> r.0 == p.(outputLocation := path))
  {
  }

  /** An unknown name raises and changes nothing. */
  lemma UnknownPropertyIsRejected(p: Props, name: string, v: Value, files: Files, dirs: set<string>)
    requires !IsKnown(name)
    ensures SetStep(p, name, v, files, dirs) == (p, Raised(UnknownProperty(name)))
    ensures GetOf(p, name) == Err(UnknownProperty(name))
  {
  }
}
