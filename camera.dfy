/**
 * The camera uploader: it opens a video stream from the rear camera, shows
 * it, grabs one frame as a JPEG `data:` URL on request and releases the
 * camera again. The camera is a scoped resource: every exit path (capture,
 * stop, unmount, a change of `disabled`, a new start) releases the stream
 * held before.
 */
module Camera {
  import opened Wrappers
  import opened Browser

  /** A `MediaStreamTrack`: live until stopped. */
  class Track {
    var live: bool

    constructor ()
      ensures live
    {
      live := true;
    }

    method Stop()
      modifies this
      ensures !live
    {
      live := false;
    }
  }

  /** A `MediaStream` and its tracks, as `getUserMedia` hands it out. */
  class MediaStream {
    const tracks: seq<Track>

    constructor (count: nat)
      ensures |tracks| == count
      ensures forall t :: t in tracks ==> fresh(t) && t.live
    {
      var ts: seq<Track> := [];
      while |ts| < count
        invariant |ts| <= count
        invariant forall t :: t in ts ==> fresh(t) && t.live
      {
        var t := new Track();
        ts := ts + [t];
      }
      tracks := ts;
    }
  }

  /** Every track of `s` has been stopped: the stream holds no device. */
  ghost predicate Released(s: MediaStream)
    reads s.tracks
  {
    forall t :: t in s.tracks ==> !t.live
  }

  const CameraDeniedToast :=
    Toast("Camera Access Denied", "Please enable camera permissions in your browser settings.", true)

  /** How a button is rendered: not at all, or shown and enabled or disabled. */
  datatype Button = Hidden | Shown(enabled: bool)

  datatype Controls = Controls(start: Button, capture: Button, stop: Button)

  class CameraUploader {
    /** `streamRef.current`. */
    var streamRef: MediaStream?
    var isCameraOn: bool
    /** `null` until known, then whether the camera may be used. */
    var hasCameraPermission: Option<bool>
    /** `videoRef.current.srcObject`. */
    var videoSource: MediaStream?
    var canvasWidth: nat
    var canvasHeight: nat
    /** The `disabled` prop. */
    var disabled: bool
    /** Every `data:` URL handed to `onImageCapture`, oldest first. */
    var captures: seq<string>
    /** Every toast raised so far, oldest first. */
    var toasts: seq<Toast>
    /** Every stream this component has obtained. */
    ghost var acquired: set<MediaStream>
    /** Every track of those streams. */
    ghost var trackRepr: set<Track>

    /**
     * The camera is on exactly while a stream is held, the video shows that
     * stream, and every other stream ever obtained is released.
     */
    ghost predicate Valid()
      reads this, trackRepr
    {
      && (isCameraOn <==> streamRef != null)
      && videoSource == streamRef
      && (streamRef != null ==> streamRef in acquired)
      && (forall s, t :: s in acquired && t in s.tracks ==> t in trackRepr)
      && (forall s, t :: s in acquired && s != streamRef && t in s.tracks ==> !t.live)
    }

    /** No stream obtained by this component holds a device. */
    ghost predicate AllReleased()
      reads this, trackRepr
      requires Valid()
    {
      forall s :: s in acquired ==> Released(s)
    }

    /** The streams that still hold a device. */
    ghost function LiveStreams(): (live: set<MediaStream>)
      reads this, trackRepr
      requires Valid()
    {
      set s | s in acquired && !Released(s)
    }

    constructor (disabled: bool)
      ensures Valid() && AllReleased()
      ensures this.disabled == disabled
      ensures streamRef == null && !isCameraOn && hasCameraPermission == None
      ensures captures == [] && toasts == [] && acquired == {}
    {
      this.disabled := disabled;
      streamRef, isCameraOn, hasCameraPermission, videoSource := null, false, None, null;
      canvasWidth, canvasHeight := 0, 0;
      captures, toasts := [], [];
      acquired, trackRepr := {}, {};
    }

    /** At most one stream holds a device at any time: the one in `streamRef`. */
    lemma AtMostOneLiveStream()
      requires Valid()
      ensures LiveStreams() <= if streamRef == null then {} else {streamRef}
      ensures |LiveStreams()| <= 1
    {
      var live := LiveStreams();
      var held: set<MediaStream> := if streamRef == null then {} else {streamRef};
      forall s | s in live ensures s in held {
        if s != streamRef {
          assert Released(s);
        }
      }
      assert live <= held;
      SubsetCardinality(live, held);
    }

    static lemma SubsetCardinality(a: set<MediaStream>, b: set<MediaStream>)
      requires a <= b
      ensures |a| <= |b|
    {
      assert b == a + (b - a);
    }

    /**
     * `stopCamera`: with a stream held, every track is stopped and the stream,
     * the video source and the on flag are cleared; with none, nothing changes.
     */
    method StopCamera()
      requires Valid()
      modifies this, trackRepr
      ensures Valid() && AllReleased()
      ensures streamRef == null && !isCameraOn
      ensures acquired == old(acquired) && trackRepr == old(trackRepr)
      ensures hasCameraPermission == old(hasCameraPermission) && disabled == old(disabled)
      ensures captures == old(captures) && toasts == old(toasts)
      ensures canvasWidth == old(canvasWidth) && canvasHeight == old(canvasHeight)
      ensures old(streamRef) == null ==> unchanged(trackRepr)
    {
      if streamRef != null {
        var stream := streamRef;
        for i := 0 to |stream.tracks|
          modifies trackRepr
          invariant forall k :: 0 <= k < i ==> !stream.tracks[k].live
          invariant forall t :: t in trackRepr && !old(t.live) ==> !t.live
        {
          stream.tracks[i].Stop();
        }
        streamRef := null;
        isCameraOn := false;
        videoSource := null;
      }
    }

    /**
     * `startCamera`: whatever stream was held is released first; then either
     * a fresh stream is held and shown with permission granted, or permission
     * is recorded as refused, nothing is held and a toast is raised.
     */
    method StartCamera(granted: bool, trackCount: nat)
      requires Valid()
      modifies this, trackRepr
      ensures Valid()
      ensures forall s :: s in old(acquired) ==> Released(s)
      ensures disabled == old(disabled) && captures == old(captures)
      ensures canvasWidth == old(canvasWidth) && canvasHeight == old(canvasHeight)
      ensures granted ==>
        && streamRef != null && fresh(streamRef) && isCameraOn
        && |streamRef.tracks| == trackCount && (forall t :: t in streamRef.tracks ==> t.live)
        && hasCameraPermission == Some(true)
        && acquired == old(acquired) + {streamRef}
        && toasts == old(toasts)
      ensures !granted ==>
        && streamRef == null && !isCameraOn
        && hasCameraPermission == Some(false)
        && acquired == old(acquired)
        && toasts == old(toasts) + [CameraDeniedToast]
    {
      StopCamera();
      if granted {
        var stream := new MediaStream(trackCount);
        acquired := acquired + {stream};
        trackRepr := trackRepr + set t | t in stream.tracks;
        streamRef := stream;
        hasCameraPermission := Some(true);
        isCameraOn := true;
        videoSource := stream;
      } else {
        hasCameraPermission := Some(false);
        isCameraOn := false;
        toasts := toasts + [CameraDeniedToast];
      }
    }

    /**
     * The mount effect: without `navigator.mediaDevices.getUserMedia` the
     * camera is marked unusable.
     */
    method CheckSupport(mediaSupported: bool)
      requires Valid()
      modifies this
      ensures Valid()
      ensures hasCameraPermission == if mediaSupported then old(hasCameraPermission) else Some(false)
      ensures streamRef == old(streamRef) && isCameraOn == old(isCameraOn) && disabled == old(disabled)
      ensures acquired == old(acquired) && trackRepr == old(trackRepr)
      ensures captures == old(captures) && toasts == old(toasts)
      ensures canvasWidth == old(canvasWidth) && canvasHeight == old(canvasHeight)
    {
      if !mediaSupported {
        hasCameraPermission := Some(false);
      }
    }

    /** The effect's cleanup on unmount: the camera is released. */
    method Unmount()
      requires Valid()
      modifies this, trackRepr
      ensures Valid() && AllReleased()
      ensures streamRef == null && !isCameraOn
      ensures captures == old(captures) && toasts == old(toasts)
    {
      StopCamera();
    }

    /**
     * A new `disabled` prop: when it differs, the effect's cleanup releases
     * the camera and the effect runs again.
     */
    method SetDisabled(d: bool, mediaSupported: bool)
      requires Valid()
      modifies this, trackRepr
      ensures Valid()
      ensures disabled == d
      ensures d != old(disabled) ==> AllReleased() && streamRef == null && !isCameraOn
      ensures acquired == old(acquired) && trackRepr == old(trackRepr)
      ensures d != old(disabled) ==>
        hasCameraPermission == if mediaSupported then old(hasCameraPermission) else Some(false)
      ensures d == old(disabled) ==>
        && streamRef == old(streamRef) && isCameraOn == old(isCameraOn) && unchanged(trackRepr)
        && hasCameraPermission == old(hasCameraPermission)
      ensures captures == old(captures) && toasts == old(toasts)
      ensures canvasWidth == old(canvasWidth) && canvasHeight == old(canvasHeight)
    {
      if d != disabled {
        StopCamera();
        disabled := d;
        CheckSupport(mediaSupported);
      }
    }

    /**
     * `handleCapture`: with the video and canvas elements present the canvas
     * takes the video's size; with a 2d context too, the JPEG `data:` URL the
     * canvas yields is handed on and the camera is released.
     */
    method HandleCapture(elementsPresent: bool, videoWidth: nat, videoHeight: nat,
                         contextAvailable: bool, jpeg: string)
      requires Valid()
      modifies this, trackRepr
      ensures Valid()
      ensures acquired == old(acquired) && trackRepr == old(trackRepr)
      ensures elementsPresent ==> canvasWidth == videoWidth && canvasHeight == videoHeight
      ensures !elementsPresent ==> canvasWidth == old(canvasWidth) && canvasHeight == old(canvasHeight)
      ensures elementsPresent && contextAvailable ==>
        && captures == old(captures) + [jpeg]
        && streamRef == null && !isCameraOn && AllReleased()
      ensures !(elementsPresent && contextAvailable) ==>
        && captures == old(captures)
        && streamRef == old(streamRef) && isCameraOn == old(isCameraOn)
        && unchanged(trackRepr)
      ensures hasCameraPermission == old(hasCameraPermission) && disabled == old(disabled)
      ensures toasts == old(toasts)
    {
      if elementsPresent {
        canvasWidth := videoWidth;
        canvasHeight := videoHeight;
        if contextAvailable {
          captures := captures + [jpeg];
          StopCamera();
        }
      }
    }

    /** The buttons rendered for the current state. */
    function Buttons(): (c: Controls)
      reads this
      ensures c.start.Shown? <==> !isCameraOn
      ensures c.capture.Shown? <==> isCameraOn
      ensures c.stop.Shown? <==> isCameraOn
      ensures c.start.Shown? ==> (c.start.enabled <==> !disabled && hasCameraPermission != Some(false))
      ensures c.capture.Shown? ==> (c.capture.enabled <==> !disabled)
      ensures c.stop.Shown? ==> c.stop.enabled
    {
      if !isCameraOn then
        Controls(Shown(!disabled && hasCameraPermission != Some(false)), Hidden, Hidden)
      else
        Controls(Hidden, Shown(!disabled), Shown(true))
    }

    /**
     * Capture and Stop are offered exactly while a stream is held, and Start
     * is never enabled once the camera is known to be unusable.
     */
    lemma ButtonsFollowSession()
      requires Valid()
      ensures Buttons().capture.Shown? <==> streamRef != null
      ensures Buttons().stop.Shown? <==> streamRef != null
      ensures hasCameraPermission == Some(false) ==> Buttons().start != Shown(true)
    {
    }
  }
}
