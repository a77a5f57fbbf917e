/**
 * The capture-session controller of main.c as one object: the request
 * handlers (`parse_and_set`, `parse_and_get`, `parse_and_start`,
 * `parse_and_stop`), the session flag `video_capture_started` that
 * `start_stream` and `parse_and_stop` toggle, the bus watch that ends a
 * session's main loop, and the appsink callbacks that send samples.
 *
 * What the program does to the outside world (writes to a connection,
 * pipeline state changes, events sent to the camera source) is recorded as
 * a trace of effects. A pipeline is named by the number of the start that
 * built it.
 */
module MediaStreamer {
  import opened Options
  import opened Text
  import opened Query
  import opened Settings
  import opened Capture
  import opened Framing

  /** A client connection. */
  type Conn = nat

  datatype Effect =
    | Write(conn: Conn, text: string)                  // mg_printf
    | Send(conn: Conn, data: seq<byte>)                // mg_write of one sample
    | Play(session: nat, plan: GraphPlan, mode: Mode)  // pipeline built, linked and set PLAYING
    | SendEos(session: nat)                            // end-of-stream event sent to the camera source
    | Teardown(session: nat)                           // main loop left; pipeline stopped and released

  /** A start whose main loop is still running: its number, its client, its delivery mode. */
  datatype Session = Session(id: nat, conn: Conn, mode: Mode)

  /** The status line every set, start (before its header) and stop answers with. */
  const OkStatus: string := "HTTP/1.1 200 OK\r\n"

  /** The header `start_stream` writes first, whatever follows (main.c:229-236). */
  const StreamHeader: string :=
    "HTTP/1.1 200 OK\r\nContent-Type: video/mpeg\r\nConnection: close\r\nAccept-Ranges: bytes\r\n\r\n"

  /** The header of a get reply (main.c:681). */
  const GetHeader: string := "HTTP/1.1 200 OK\r\nContent-Type:text/html\r\n\r\n"

  /** The position of the session numbered `id`. */
  function IndexOf(ss: seq<Session>, id: nat): (k: nat)
    requires exists i | 0 <= i < |ss| :: ss[i].id == id
    ensures k < |ss| && ss[k].id == id
  {
    if ss[0].id == id then 0 else 1 + IndexOf(ss[1..], id)
  }

  /**
   * The body of parse_and_set's loop for one pair (main.c:569-597): the
   * key is compared with each field name, and a match stores the value,
   * through `atoi` for the integer fields.
   */
  method StorePair(c: StreamConfig, p: Pair) returns (r: StreamConfig)
    ensures r == ApplyPair(c, p)
  {
    r := c;
    match FieldNamed(p.key) {
      case None =>
      case Some(Width) => r := r.(width := Atoi(p.value));
      case Some(Height) => r := r.(height := Atoi(p.value));
      case Some(Framerate) => r := r.(framerate := Atoi(p.value));
      case Some(VideoType) => r := r.(videoType := p.value);
      case Some(DoTimestamp) => r := r.(doTimestamp := Atoi(p.value));
      case Some(Format) => r := r.(format := p.value);
    }
  }

  /**
   * The body of parse_and_get's loop for one pair (main.c:641-678): a
   * wildcard value and a known key append `key=value&` to the body
   * (LoadAttributesValue, main.c:606-615); anything else appends nothing.
   */
  method ReportPair(c: StreamConfig, body: string, p: Pair) returns (r: string)
    ensures r == body + Contribution(c, p)
  {
    r := body;
    if p.value == "**" {
      match FieldNamed(p.key) {
        case None =>
        case Some(f) => r := body + p.key + "=" + FieldText(c, f) + "&";
      }
    }
  }

  /**
   * The loop of parse_and_set (main.c:561-598): `strtok` skips the path,
   * then each further token is split at its first '=' and its pair stored.
   */
  method ApplyRequest(c: StreamConfig, uri: string) returns (r: StreamConfig)
    ensures r == ApplyPairs(c, RequestPairs(uri))
  {
    var ts := Tokens(uri, '&');
    r := c;
    if ts != [] {
      ghost var done: seq<Pair> := [];
      var i := 1;
      while i < |ts|
        invariant 1 <= i <= |ts|
        invariant done == PairsOf(ts[1..i])
        invariant r == ApplyPairs(c, done)
      {
        PairsOfStep(ts, i);
        var pair := SplitPair(ts[i]);
        ApplyPairsStep(c, done, pair);
        if pair.Some? {
          r := StorePair(r, pair.value);
        }
        done := done + ToSeq(pair);
        i := i + 1;
      }
      PairsOfAllTokens(uri);
    }
  }

  /**
   * The loop of parse_and_get (main.c:633-679), building the reply body in
   * `getstream` one pair at a time.
   */
  method BuildBody(c: StreamConfig, uri: string) returns (body: string)
    ensures body == GetBody(c, RequestPairs(uri))
  {
    var ts := Tokens(uri, '&');
    body := "";
    if ts != [] {
      ghost var done: seq<Pair> := [];
      var i := 1;
      while i < |ts|
        invariant 1 <= i <= |ts|
        invariant done == PairsOf(ts[1..i])
        invariant body == GetBody(c, done)
      {
        PairsOfStep(ts, i);
        var pair := SplitPair(ts[i]);
        GetBodyStep(c, done, pair);
        if pair.Some? {
          body := ReportPair(c, body, pair.value);
        }
        done := done + ToSeq(pair);
        i := i + 1;
      }
      PairsOfAllTokens(uri);
    }
  }

  class Streamer {
    /** stMediastreamer */
    var config: StreamConfig
    /** encamerasrc, fixed by the command line */
    const backend: Backend
    const abi: HostAbi
    /** video_capture_started */
    var started: bool
    /** pstcamerasrc: the session whose camera source a stop sends end-of-stream to */
    var source: Option<nat>
    /** the starts whose main loop is running, oldest first */
    var live: seq<Session>
    var nextId: nat
    var trace: seq<Effect>
    /** the sessions a stop has sent end-of-stream to */
    ghost var eosSent: set<nat>

    ghost predicate Valid()
      reads this`started, this`source, this`nextId, this`eosSent, this`live
    {
      && ValidAbi(abi)
      && (started ==> source.Some?)
      && (source.Some? ==> source.value < nextId)
      && (forall x | x in eosSent :: x < nextId)
      && (forall i | 0 <= i < |live| :: live[i].id < nextId)
      && (forall i, j | 0 <= i < j < |live| :: live[i].id != live[j].id)
      && (forall i | 0 <= i < |live| && live[i].id !in eosSent :: started && source == Some(live[i].id))
    }

    /** Whether a main loop numbered `id` is running. */
    predicate IsLive(id: nat)
      reads this
    {
      exists i | 0 <= i < |live| :: live[i].id == id
    }

    /**
     * Start-up (main.c:127-152): the record holds its defaults, the backend
     * comes from the first argument, and no capture runs.
     */
    constructor (arg: Option<string>, abi: HostAbi)
      requires ValidAbi(abi)
      ensures Valid()
      ensures config == Defaults() && backend == BackendFromArg(arg) && this.abi == abi
      ensures !started && source == None && live == [] && trace == []
    {
      config := Defaults();
      backend := BackendFromArg(arg);
      this.abi := abi;
      started := false;
      source := None;
      live := [];
      nextId := 0;
      trace := [];
      eosSent := {};
    }

    /**
     * parse_and_set (main.c:549-601): the pairs after the path update the
     * record in request order, and the reply is the status line.
     */
    method SetStream(conn: Conn, uri: string)
      requires Valid()
      modifies this`config, this`trace
      ensures Valid()
      ensures config == ApplyPairs(old(config), RequestPairs(uri))
      ensures trace == old(trace) + [Write(conn, OkStatus)]
    {
      config := ApplyRequest(config, uri);
      trace := trace + [Write(conn, OkStatus)];
    }

    /**
     * parse_and_get (main.c:618-686): the header, then a body holding
     * `key=value&` for every wildcard query of a known key, in request order.
     */
    method GetStream(conn: Conn, uri: string)
      requires Valid()
      modifies this`trace
      ensures Valid()
      ensures trace == old(trace) + [Write(conn, GetHeader), Write(conn, GetBody(config, RequestPairs(uri)))]
    {
      var body := BuildBody(config, uri);
      trace := trace + [Write(conn, GetHeader), Write(conn, body)];
    }

    /**
     * start_stream (main.c:222-440) up to the main loop: the stream header
     * always goes out first. A running capture makes it return at once.
     * Otherwise it builds the pipeline the record calls for, fixes the
     * delivery mode, remembers the camera source for a later stop, raises
     * the flag and sets the pipeline playing.
     */
    method Start(conn: Conn)
      requires Valid()
      modifies this`trace, this`started, this`source, this`nextId, this`live
      ensures Valid()
      ensures config == old(config) && eosSent == old(eosSent)
      ensures old(started) ==>
        && started && source == old(source) && live == old(live) && nextId == old(nextId)
        && trace == old(trace) + [Write(conn, StreamHeader)]
      ensures !old(started) ==>
        && started && source == Some(old(nextId)) && nextId == old(nextId) + 1
        && live == old(live) + [Session(old(nextId), conn, ModeOf(config.doTimestamp))]
        && trace == old(trace) + [Write(conn, StreamHeader),
                                  Play(old(nextId), Plan(config, backend), ModeOf(config.doTimestamp))]
    {
      trace := trace + [Write(conn, StreamHeader)];
      if started {
        return;
      }
      var id := nextId;
      var plan := Plan(config, backend);
      var mode := ModeOf(config.doTimestamp);
      source := Some(id);
      nextId := nextId + 1;
      live := live + [Session(id, conn, mode)];
      started := true;
      trace := trace + [Play(id, plan, mode)];
    }

    /**
     * parse_and_start (main.c:209-216): the pixel format is forgotten, the
     * request is applied as a set request (status line included), and then
     * the capture is started with the resulting record.
     */
    method StartStream(conn: Conn, uri: string)
      requires Valid()
      modifies this`config, this`trace, this`started, this`source, this`nextId, this`live
      ensures Valid()
      ensures config == StartConfig(old(config), RequestPairs(uri)) && eosSent == old(eosSent)
      ensures old(started) ==>
        && started && source == old(source) && live == old(live) && nextId == old(nextId)
        && trace == old(trace) + [Write(conn, OkStatus), Write(conn, StreamHeader)]
      ensures !old(started) ==>
        && started && source == Some(old(nextId)) && nextId == old(nextId) + 1
        && live == old(live) + [Session(old(nextId), conn, ModeOf(config.doTimestamp))]
        && trace == old(trace) + [Write(conn, OkStatus), Write(conn, StreamHeader),
                                  Play(old(nextId), Plan(config, backend), ModeOf(config.doTimestamp))]
    {
      config := config.(format := "");
      SetStream(conn, uri);
      assert config == StartConfig(old(config), RequestPairs(uri));
      Start(conn);
    }

    /**
     * parse_and_stop (main.c:534-545): with a capture running, the flag is
     * lowered, end-of-stream goes to the remembered camera source and the
     * status line is the reply. With none running nothing happens, and no
     * reply is written.
     */
    method Stop(conn: Conn)
      requires Valid()
      modifies this
      ensures Valid()
      ensures config == old(config) && live == old(live) && nextId == old(nextId) && source == old(source)
      ensures !started
      ensures old(started) ==>
        && eosSent == old(eosSent) + {old(source).value}
        && trace == old(trace) + [SendEos(old(source).value), Write(conn, OkStatus)]
      ensures !old(started) ==> eosSent == old(eosSent) && trace == old(trace)
    {
      if started {
        started := false;
        eosSent := eosSent + {source.value};
        trace := trace + [SendEos(source.value), Write(conn, OkStatus)];
      }
    }

    /**
     * A bus message for the session numbered `id` (on_message,
     * main.c:506-528): end of stream and errors end its main loop, after
     * which start_stream tears the pipeline down (main.c:375-440). The
     * teardown never lowers the flag, so a capture that ended by itself
     * still counts as running.
     */
    method OnBusMessage(id: nat, m: BusMessage)
      requires Valid() && IsLive(id)
      modifies this`live, this`trace
      ensures Valid()
      ensures started == old(started) && source == old(source)
      ensures OnMessage(m).quitLoop ==>
        && !IsLive(id)
        && live == old(live)[..IndexOf(old(live), id)] + old(live)[IndexOf(old(live), id) + 1..]
        && trace == old(trace) + [Teardown(id)]
      ensures !OnMessage(m).quitLoop ==> live == old(live) && trace == old(trace)
    {
      var reply := OnMessage(m);
      if reply.quitLoop {
        var k := IndexOf(live, id);
        live := live[..k] + live[k + 1..];
        trace := trace + [Teardown(id)];
        forall i | 0 <= i < |live| ensures live[i].id != id {
          if i < k {
            assert live[i] == old(live)[i];
          } else {
            assert live[i] == old(live)[i + 1];
          }
        }
      }
    }

    /**
     * A sample reaching the sink of the session numbered `id`: it is sent to
     * that session's client in the mode fixed when the session started
     * (on_new_sample, main.c:444-464; on_new_sample_with_timestamp_and_size,
     * main.c:468-498).
     */
    method NewSample(id: nat, f: Frame)
      requires Valid() && IsLive(id)
      modifies this`trace
      ensures Valid()
      ensures trace == old(trace) + [Send(live[IndexOf(live, id)].conn,
                                          Record(live[IndexOf(live, id)].mode, f, abi))]
    {
      var s := live[IndexOf(live, id)];
      trace := trace + [Send(s.conn, Record(s.mode, f, abi))];
    }

    /** At most one session is capturing without having been told to stop. */
    lemma AtMostOneRunning()
      requires Valid()
      ensures forall i, j | 0 <= i < |live| && 0 <= j < |live| ::
        live[i].id !in eosSent && live[j].id !in eosSent ==> i == j
    {
      forall i, j | 0 <= i < |live| && 0 <= j < |live| && live[i].id !in eosSent && live[j].id !in eosSent
        ensures i == j
      {
        assert source == Some(live[i].id) && source == Some(live[j].id);
      }
    }
  }

  /**
   * A capture that ends by itself (end of stream or an error, with no stop)
   * leaves the flag raised: after its teardown the next start request gets
   * its status line and header and nothing else.
   */
  method NaturalEndRefusesRestart(s: Streamer, id: nat, m: BusMessage, conn: Conn, uri: string)
    requires s.Valid() && s.started && s.IsLive(id) && m != OtherMessage
    modifies s
    ensures s.Valid() && s.started && !s.IsLive(id)
    ensures s.trace == old(s.trace) + [Teardown(id), Write(conn, OkStatus), Write(conn, StreamHeader)]
  {
    s.OnBusMessage(id, m);
    var t1 := s.trace;
    s.StartStream(conn, uri);
    assert s.trace == t1 + [Write(conn, OkStatus), Write(conn, StreamHeader)];
  }

  /**
   * A stop followed by a start builds a new pipeline at once, while the
   * stopped one may still be draining its end-of-stream: two main loops can
   * be live, and only the new one is capturing.
   */
  method StopThenRestart(s: Streamer, stopConn: Conn, startConn: Conn, uri: string)
    requires s.Valid() && s.started
    modifies s
    ensures s.Valid() && s.started && s.source == Some(old(s.nextId))
    ensures s.live == old(s.live) + [Session(old(s.nextId), startConn, ModeOf(s.config.doTimestamp))]
    ensures s.trace == old(s.trace) + [
      SendEos(old(s.source).value), Write(stopConn, OkStatus),
      Write(startConn, OkStatus), Write(startConn, StreamHeader),
      Play(old(s.nextId), Plan(s.config, s.backend), ModeOf(s.config.doTimestamp))]
  {
    s.Stop(stopConn);
    var t1 := s.trace;
    s.StartStream(startConn, uri);
    assert s.trace == t1 + [Write(startConn, OkStatus), Write(startConn, StreamHeader),
                            Play(old(s.nextId), Plan(s.config, s.backend), ModeOf(s.config.doTimestamp))];
  }
}
