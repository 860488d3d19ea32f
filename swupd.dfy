// The D-Bus software object of a firmware image (src/common_swupd.cpp): its
// Activation and RequestedActivation property setters form the activation
// state machine that hands the image to the device to be flashed.
module SoftwareUpdate {

  /** The `Activations` values of the Software.Activation interface. */
  datatype Activations = NotReady | Invalid | Ready | Activating | Active | Failed | Staged

  /** The `RequestedActivations` values of the interface. */
  datatype RequestedActivations = RequestNone | RequestActive

  /** A call of the device's `updateImage`: the image file, its version and
    * the object path of the software object. */
  datatype UpdateRequest = UpdateRequest(imagePath: string, imageVersion: string, dbusObject: string)

  /** An association of the Association.Definitions interface:
    * (forward, reverse, endpoint). */
  datatype Association = Association(forward: string, reverse: string, endpoint: string)

  // ---------------------------------------------------------------------
  // std::filesystem paths on POSIX
  // ---------------------------------------------------------------------

  predicate IsAbsolute(p: string)
  {
    p != [] && p[0] == '/'
  }

  /** A path has a file name when it does not end in a separator. */
  predicate HasFilename(p: string)
  {
    p != [] && p[|p| - 1] != '/'
  }

  /** `dir / name`: an absolute `name` replaces the path; otherwise a
    * separator is added after a path that has a file name, then `name`. */
  function JoinPath(dir: string, name: string): (r: string)
    ensures IsAbsolute(name) ==> r == name
    ensures !IsAbsolute(name) && HasFilename(dir) ==> r == dir + "/" + name
    ensures !IsAbsolute(name) && !HasFilename(dir) ==> r == dir + name
  {
    if IsAbsolute(name) then name
    else if HasFilename(dir) then dir + "/" + name
    else dir + name
  }

  /** The text after the last separator of a path. */
  function Filename(p: string): string
  {
    if p == [] then []
    else if p[|p| - 1] == '/' then []
    else Filename(p[..|p| - 1]) + [p[|p| - 1]]
  }

  predicate NoSeparator(s: string)
  {
    forall i :: 0 <= i < |s| ==> s[i] != '/'
  }

  lemma {:induction false} FilenameAppend(dir: string, name: string)
    requires NoSeparator(name)
    requires dir == [] || dir[|dir| - 1] == '/'
    ensures Filename(dir + name) == name
    decreases |name|
  {
    if name == [] {
      assert dir + name == dir;
    } else {
      var init := name[..|name| - 1];
      FilenameAppend(dir, init);
      assert (dir + name)[..|dir + name| - 1] == dir + init;
      assert name == init + [name[|name| - 1]];
    }
  }

  /** A relative file name without separators joined to a directory is the
    * file name of the joined path. */
  lemma JoinedFilename(dir: string, name: string)
    requires NoSeparator(name)
    ensures Filename(JoinPath(dir, name)) == name
  {
    if name != [] {
      assert !IsAbsolute(name) by {
        assert name[0] != '/';
      }
    }
    if HasFilename(dir) {
      assert dir + "/" + name == (dir + "/") + name;
      FilenameAppend(dir + "/", name);
    } else if !IsAbsolute(name) {
      FilenameAppend(dir, name);
    }
  }

  /** The image file of a software object: `<path>/<extendedVersion>.bin`. */
  function ImagePath(path: string, extendedVersion: string): string
  {
    JoinPath(path, extendedVersion + ".bin")
  }

  /** The image file of an extended version without separators lies
    * directly in the object's directory and is named after the version. */
  lemma ImagePathNamed(path: string, extendedVersion: string)
    requires NoSeparator(extendedVersion)
    ensures Filename(ImagePath(path, extendedVersion)) == extendedVersion + ".bin"
    ensures HasFilename(path) ==> ImagePath(path, extendedVersion) == path + "/" + extendedVersion + ".bin"
  {
    var name := extendedVersion + ".bin";
    assert NoSeparator(name) by {
      forall i | 0 <= i < |name|
        ensures name[i] != '/'
      {
        if i < |extendedVersion| {
          assert name[i] == extendedVersion[i];
        }
      }
    }
    assert name[0] != '/' by {
      if extendedVersion != [] {
        assert name[0] == extendedVersion[0];
      }
    }
    JoinedFilename(path, name);
  }

  // ---------------------------------------------------------------------
  // The state machine on values
  // ---------------------------------------------------------------------

  /** The part of a software object the setters change: the two
    * properties and the update calls made so far. */
  datatype ActivationState = ActivationState(
    activation: Activations,
    requested: RequestedActivations,
    updates: seq<UpdateRequest>)

  /** The Activation setter: setting Activating calls the device's
    * `updateImage` with `request`; a refusal (`accepted` false) stores
    * Failed instead.  Any other value is stored as is. */
  function SetActivation(s: ActivationState, value: Activations, request: UpdateRequest, accepted: bool): ActivationState
  {
    if value == Activating then
      s.(activation := if accepted then Activating else Failed, updates := s.updates + [request])
    else
      s.(activation := value)
  }

  /** Whether a request starts an activation. */
  predicate Starts(s: ActivationState, value: RequestedActivations)
  {
    value == RequestActive && (s.activation == Ready || s.activation == Failed)
  }

  /** The RequestedActivation setter: requesting Active of a Ready or
    * Failed object sets Activating; the request is stored in every case. */
  function RequestActivation(s: ActivationState, value: RequestedActivations, request: UpdateRequest, accepted: bool): ActivationState
  {
    var t := if Starts(s, value) then SetActivation(s, Activating, request, accepted) else s;
    t.(requested := value)
  }

  /** Setting Activating calls the update exactly once, and the state is
    * Activating exactly when the device accepted the image; other values
    * call nothing. */
  lemma SetActivationCalls(s: ActivationState, value: Activations, request: UpdateRequest, accepted: bool)
    ensures var t := SetActivation(s, value, request, accepted);
      t.requested == s.requested &&
      (value == Activating ==>
         t.updates == s.updates + [request] &&
         (t.activation == Activating <==> accepted) &&
         (t.activation == Failed <==> !accepted)) &&
      (value != Activating ==> t.updates == s.updates && t.activation == value)
  {
  }

  /** A request starts an update exactly when it asks for Active of a
    * Ready or Failed object; otherwise the activation is untouched. */
  lemma RequestStartsUpdate(s: ActivationState, value: RequestedActivations, request: UpdateRequest, accepted: bool)
    ensures var t := RequestActivation(s, value, request, accepted);
      t.requested == value &&
      (Starts(s, value) <==> |t.updates| == |s.updates| + 1) &&
      (!Starts(s, value) ==> t.activation == s.activation && t.updates == s.updates) &&
      (Starts(s, value) ==> t.updates[|s.updates|] == request && (t.activation == Activating <==> accepted))
  {
  }

  /** A second Active request while the first activation runs calls no
    * further update; after a refusal, it retries. */
  lemma RepeatedRequest(s: ActivationState, request: UpdateRequest, accepted: bool, again: bool)
    requires s.activation == Ready || s.activation == Failed
    ensures var t := RequestActivation(s, RequestActive, request, accepted);
      var u := RequestActivation(t, RequestActive, request, again);
      (accepted ==> u == t) &&
      (!accepted ==> u.updates == s.updates + [request, request])
  {
    var t := RequestActivation(s, RequestActive, request, accepted);
    if !accepted {
      assert t.activation == Failed;
      assert s.updates + [request] + [request] == s.updates + [request, request];
    }
  }

  /** Cancelling (requesting None) never touches the activation. */
  lemma RequestNoneKeepsActivation(s: ActivationState, request: UpdateRequest, accepted: bool)
    ensures var t := RequestActivation(s, RequestNone, request, accepted);
      t == s.(requested := RequestNone)
  {
  }

  // ---------------------------------------------------------------------
  // The object
  // ---------------------------------------------------------------------

  /** The software object.  The device's `updateImage` is outside the
    * model: its answer is a parameter of the setters that may call it. */
  class SoftwareObject {
    const objectPath: string
    var activation: Activations
    var requestedActivation: RequestedActivations
    var path: string
    var extendedVersion: string
    var version: string
    /** The version purpose, by the name of its enumeration value. */
    var purpose: string
    var associations: seq<Association>
    /** The `updateImage` calls made so far. */
    var updates: seq<UpdateRequest>

    function State(): ActivationState
      reads this
    {
      ActivationState(activation, requestedActivation, updates)
    }

    /** The update call the object makes now. */
    function Request(): UpdateRequest
      reads this
    {
      UpdateRequest(ImagePath(path, extendedVersion), version, objectPath)
    }

    /** A new object for the image at `filePath`, associated with the
      * target's inventory object `inventory`: Ready, nothing requested. */
    constructor (objPath: string, filePath: string, fwVersion: string, imageType: string, versionPurpose: string,
                 inventory: string)
      ensures objectPath == objPath && path == filePath && version == fwVersion
      ensures extendedVersion == imageType && purpose == versionPurpose
      ensures associations == [Association("inventory", "activation", inventory)]
      ensures State() == ActivationState(Ready, RequestNone, [])
    {
      objectPath := objPath;
      associations := [Association("inventory", "activation", inventory)];
      path := filePath;
      activation := Ready;
      requestedActivation := RequestNone;
      extendedVersion := imageType;
      version := fwVersion;
      purpose := versionPurpose;
      updates := [];
    }

    /** The Activation setter; `accepted` is what `updateImage` answers if
      * it is called.  It returns the stored value. */
    method SetActivationProperty(value: Activations, accepted: bool) returns (r: Activations)
      modifies this`activation, this`updates
      ensures State() == SetActivation(old(State()), value, old(Request()), accepted)
      ensures r == activation
    {
      if value == Activating {
        var imageFilename := extendedVersion + ".bin";
        var imagePath := JoinPath(path, imageFilename);
        updates := updates + [UpdateRequest(imagePath, version, objectPath)];
        if !accepted {
          activation := Failed;
          return activation;
        }
      }
      activation := value;
      return activation;
    }

    /** The RequestedActivation setter.  It returns the stored value. */
    method SetRequestedActivation(value: RequestedActivations, accepted: bool) returns (r: RequestedActivations)
      modifies this`activation, this`updates, this`requestedActivation
      ensures State() == RequestActivation(old(State()), value, old(Request()), accepted)
      ensures r == value
    {
      if value == RequestActive && (activation == Ready || activation == Failed) {
        var _ := SetActivationProperty(Activating, accepted);
      }
      requestedActivation := value;
      return requestedActivation;
    }

  }
}
