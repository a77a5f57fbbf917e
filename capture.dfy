/**
 * The pure decisions `main` and `start_stream` make: which camera backend a
 * command line selects, which elements the capture pipeline links and which
 * caps its filter carries, and how the bus watch reacts to a message.
 * The elements themselves are names here; the GStreamer calls are not part
 * of this model.
 */
module Capture {
  import opened Options
  import opened Settings

  /** The camera source families (`CAMERA_SRC`, main.c:59-63). */
  datatype Backend = V4L2 | LibCamera

  /**
   * The backend `main` selects from its first argument (main.c:142-152):
   * "libcamerasrc" selects libcamera; "v4l2src", any other word and a
   * missing argument leave the default, V4L2 (main.c:79).
   */
  function BackendFromArg(arg: Option<string>): (b: Backend)
    ensures b == LibCamera <==> arg == Some("libcamerasrc")
  {
    match arg
    case None => V4L2
    case Some(a) =>
      if a == "v4l2src" then V4L2
      else if a == "libcamerasrc" then LibCamera
      else V4L2
  }

  /** The elements of a capture pipeline, by role. */
  datatype Element =
    | CameraSource(backend: Backend)
    | CapsFilter
    | VideoConvert
    | Encoder(backend: Backend)
    | AppSink

  /** The GStreamer factory each element is made from (main.c:243-272). */
  function FactoryName(e: Element): string {
    match e
    case CameraSource(V4L2) => "v4l2src"
    case CameraSource(LibCamera) => "libcamerasrc"
    case CapsFilter => "capsfilter"
    case VideoConvert => "videoconvert"
    case Encoder(V4L2) => "omxh264enc"
    case Encoder(LibCamera) => "v4l2h264enc"
    case AppSink => "appsink"
  }

  /**
   * The command-line word that selects a backend is the factory name of the
   * camera source `start_stream` then makes: naming a source factory on the
   * command line makes the pipeline use that very factory.
   */
  lemma SourceNameSelectsBackend(b: Backend)
    ensures BackendFromArg(Some(FactoryName(CameraSource(b)))) == b
  {
  }

  /**
   * The elements `start_stream` makes for a backend, besides the pipeline
   * itself (main.c:243-272): the filter and the sink always, and the
   * backend's own source and encoder; libcamera also gets a converter.
   */
  function CreatedElements(b: Backend): (es: seq<Element>)
    ensures CameraSource(b) in es && Encoder(b) in es && CapsFilter in es && AppSink in es
    ensures VideoConvert in es <==> b == LibCamera
  {
    [CapsFilter, AppSink, CameraSource(b), Encoder(b)] + (if b == LibCamera then [VideoConvert] else [])
  }

  datatype Fraction = Fraction(num: int, den: int)

  /** The caps set on the filter: `gst_caps_new_simple` with an optional "format" field. */
  datatype Caps = Caps(
    mediaType: string,
    width: int,
    height: int,
    framerate: Fraction,
    format: Option<string>)

  /** The linked chain, source first, and the caps of its filter. */
  datatype GraphPlan = GraphPlan(chain: seq<Element>, caps: Caps)

  /**
   * The shape and caps branch of `start_stream` (main.c:291-356). With no
   * pixel format the camera output is H.264-encoded (libcamera converting
   * to NV12 first); with a format the raw frames go straight to the sink in
   * that format. The caps always carry the media type, width, height and
   * framerate/1 of the record. The chain runs source, filter, then the
   * converter (libcamera only) and the encoder when there is no format, then
   * the sink: camerasrc, filter, videoconvert, h264enc, appsink at
   * main.c:315-317.
   */
  function Plan(c: StreamConfig, b: Backend): (p: GraphPlan)
    ensures p.caps.mediaType == c.videoType && p.caps.width == c.width && p.caps.height == c.height
    ensures p.caps.framerate == Fraction(c.framerate, 1)
    ensures |p.chain| >= 3 && p.chain[0] == CameraSource(b) && p.chain[1] == CapsFilter
    ensures p.chain[|p.chain| - 1] == AppSink
    ensures Encoder(b) in p.chain <==> c.format == ""
    ensures VideoConvert in p.chain <==> c.format == "" && b == LibCamera
    ensures c.format == "" ==>
      p.chain[2..|p.chain| - 1] == (if b == LibCamera then [VideoConvert] else []) + [Encoder(b)]
    ensures c.format != "" ==> p.caps.format == Some(c.format)
    ensures c.format == "" ==> p.caps.format == (if b == LibCamera then Some("NV12") else None)
  {
    var caps := Caps(c.videoType, c.width, c.height, Fraction(c.framerate, 1), None);
    if c.format == "" then
      match b
      case V4L2 =>
        GraphPlan([CameraSource(V4L2), CapsFilter, Encoder(V4L2), AppSink], caps)
      case LibCamera =>
        GraphPlan([CameraSource(LibCamera), CapsFilter, VideoConvert, Encoder(LibCamera), AppSink],
                  caps.(format := Some("NV12")))
    else
      GraphPlan([CameraSource(b), CapsFilter, AppSink], caps.(format := Some(c.format)))
  }

  /**
   * The chain links only elements that were made for this backend, each
   * once: V4L2 never uses the converter it did not create.
   */
  lemma PlanUsesCreatedElements(c: StreamConfig, b: Backend)
    ensures forall e | e in Plan(c, b).chain :: e in CreatedElements(b)
    ensures forall i, j | 0 <= i < j < |Plan(c, b).chain| :: Plan(c, b).chain[i] != Plan(c, b).chain[j]
  {
    var ch := Plan(c, b).chain;
    var es := CreatedElements(b);
    if c.format == "" && b == V4L2 {
      assert ch == [CameraSource(V4L2), CapsFilter, Encoder(V4L2), AppSink];
    } else if c.format == "" {
      assert ch == [CameraSource(LibCamera), CapsFilter, VideoConvert, Encoder(LibCamera), AppSink];
    } else {
      assert ch == [CameraSource(b), CapsFilter, AppSink];
    }
  }

  /** The messages the bus watch distinguishes (main.c:506-528). */
  datatype BusMessage = EndOfStream | ErrorMessage | OtherMessage

  /** What `on_message` does: whether it quits the main loop, and its return value. */
  datatype BusReply = BusReply(quitLoop: bool, keepWatch: bool)

  /**
   * `on_message`: end of stream and errors end the main loop; every other
   * message is ignored; the watch always stays installed (TRUE).
   */
  function OnMessage(m: BusMessage): (r: BusReply)
    ensures r.keepWatch
    ensures r.quitLoop <==> m == EndOfStream || m == ErrorMessage
  {
    match m
    case EndOfStream => BusReply(true, true)
    case ErrorMessage => BusReply(true, true)
    case OtherMessage => BusReply(false, true)
  }
}
